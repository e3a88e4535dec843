# Research pipeline scripts, modelled in Dafny

This project models the logic of the research pipeline's scripts that can be
stated as rules rather than as plotting or database glue:

- **HPLC calibration** (`Calibration`): how standard injections are weighted and filtered, the intercept-policy check, and the weighted least-squares fit with or without an intercept. It also covers the output row and the grouping of the run.
- **HPLC quality control** (`HplcQc`): the retention-time drift of each run against its least-squares line, and the two plate-count formulas with their infinity handling. `HplcQc.QcTable` is the table the script evidently means, with each row carrying its own peak's plate counts. `HplcQcAlignment` models what the script's last steps compute: the `.to_frame()` failure when every run has the same molecules, and the plate columns assigned across two differently ordered indexes.
- **LC Solutions export parsing** (`LcsExport`): the block-boundary scan over every export file, the `--constant` options and the column renaming.
- **Text and table converters:**
  - the MOTHUR count-table sparsifier (`CountTable`);
  - the shared-file stacker (`SharedFile`);
  - the taxonomy-string parser (`OtuTaxonomy`);
  - the names-file expander (`NamesTaxonomy`);
  - the list-file OTU/group pairing (`OtuNames`);
  - the Makefile rule generator (`RrsMakefile`).
- **Plot helpers** (`PlotHelpers`): selector parsing, row selection and plot-grid sizing.
- **Mouse data** (`MouseData`): the derived columns of the mouse data loader, namely carbon weighting, fractions, relative abundance, clamped "unclassified" remainders, the `dead` flag, site renaming and taxon-name sanitising.
- **Plotting constants** (`Plotting`): the significance-symbol bands, the millimetre-to-inch widths, and the style lookup with its error.

Three helper modules carry what the scripts borrow from Python, pandas and numpy:

- `Floats` holds floating-point values as `Fin(real) | Inf(neg) | NaN`, with IEEE division, multiplication, squaring and the `replace(inf, nan)` calls.
- `Text` holds `str.split`, `str.split()`, `str.strip`, `str.join`, `str.startswith` and `str.lower`.
- `LeastSquares` holds weighted straight-line fits, stated by their normal equations and proved to minimise the weighted residual sum of squares.

`Wrappers` holds `Option` and `Result`.

Arithmetic is exact: `real` stands for the values of the floats, so there is no rounding. Every input file, database query and command-line argument is a parameter: a sequence of lines, a sequence of records or a string.

Where a script works by loops that change variables, the model keeps the loop. This covers the line scans, the nested print loops, the dictionary fills and the column assignments. Each such method is proved to compute a function, and the properties are proved about that function. Pipelines of whole-table transforms are modelled as functions.

## Model

| member | source | states |
|---|---|---|
| Floats.Div | scripts/qc_hplc.py:17 | IEEE division: finite exactly for a finite numerator over a non-zero or infinite denominator; x/0 is infinite for x ≠ 0, 0/0 is NaN |
| Floats.ReplaceInf | scripts/calibrate_hplc.py:22 | `replace([inf, -inf], nan)` leaves no infinity and keeps every other value |
| Floats.ReplacePosInf | scripts/qc_hplc.py:30 | `replace(inf, nan)` leaves no +inf and keeps every other value, including −inf |
| Floats.ReplaceInfColumn | scripts/calibrate_hplc.py:22 | the in-place replace sets every cell of the column to its replaced old value |
| Floats.ReplacePosInfColumn | scripts/qc_hplc.py:30 | the in-place replace of +inf sets every cell of the column to its replaced old value |
| Text.Split | scripts/parse_names_as_taxonomy.py:13 | `s.split(sep)` gives one more piece than there are separators; no piece holds the separator; joining the pieces gives `s` back |
| Text.SplitJoin | scripts/parse_names_as_taxonomy.py:13-14 | splitting a join of separator-free parts gives the parts back (the converse round trip) |
| Text.SplitWsCovers | scripts/pivot_count_table.py:10 | `s.split()` loses only whitespace: `s` is its tokens woven with whitespace runs, only the two outer runs may be empty |
| Text.SplitWsWeave | scripts/pivot_count_table.py:10 | tokens woven with any whitespace runs (non-empty between tokens) split back into exactly those tokens |
| Text.SplitWsJoin | scripts/pivot_count_table.py:14 | words joined by single spaces split back into the same words |
| Text.StripBounds | scripts/otus_to_names_file.py:11 | `strip(chars)` cuts only characters of the set, and the kept middle starts and ends outside it |
| Text.StripCharsPadded | scripts/parse_otu_taxonomy.py:30 | stripping a middle part padded by characters of the set gives exactly the middle part |
| Text.Lower | scripts/parse_lcs_export.py:112 | `lower()` keeps the length, turns each ASCII capital into the same letter in lower case, keeps every other character, and leaves no capital |
| Text.LowerIdempotent | scripts/parse_lcs_export.py:112 | lower-casing twice is lower-casing once |
| LeastSquares.OriginSlopeMinimises | scripts/calibrate_hplc.py:33 | the through-origin weighted slope Σw·c·a / Σw·c² has a residual sum of squares no larger than any other slope's |
| LeastSquares.InterceptLineMinimises | scripts/calibrate_hplc.py:35 | the weighted line with intercept has a residual sum of squares no larger than any other line's |
| LeastSquares.NormalEquationsMinimise | scripts/calibrate_hplc.py:33-35 | any solution of the normal equations minimises the weighted residual sum of squares |
| LeastSquares.ExactOriginRecovered | scripts/calibrate_hplc.py:33 | data lying exactly on a line through the origin gives back that line's slope |
| LeastSquares.ExactLineRecovered | scripts/calibrate_hplc.py:35 | data lying exactly on a line with an intercept gives back that intercept and slope |
| LeastSquares.SingularIffOneConcentration | scripts/calibrate_hplc.py:35 | with positive weights, the design with an intercept is singular exactly when every concentration is the same |
| Calibration.Weight | scripts/calibrate_hplc.py:19 | the weight w of a finite non-zero concentration c satisfies w·c² = 1; a zero concentration gives +inf, an infinite one gives 0, and NaN stays NaN |
| Calibration.WeightColumn | scripts/calibrate_hplc.py:19-22 | the weight column after the frame-wide replace holds, for every standard, the replaced weight of its concentration |
| Calibration.WeightAfterReplace | scripts/calibrate_hplc.py:19-22 | after the replace, a zero concentration has no weight (NaN), an infinite one has weight 0, and a finite non-zero one has a positive weight |
| Calibration.UsableRowsCount | scripts/calibrate_hplc.py:22 | the filter keeps exactly the standards whose concentration is non-zero or infinite and whose area is finite |
| Calibration.FitPointsWeighted | scripts/calibrate_hplc.py:19-35 | every point the regression sees has a non-zero concentration c and weight c⁻² |
| Calibration.SingleFlag | scripts/calibrate_hplc.py:27-28 | `len(unique) == 1` holds exactly when every usable row carries the first row's intercept flag |
| Calibration.InverseSquarePositive | scripts/calibrate_hplc.py:19 | inverse-square weights are positive and their concentrations non-zero |
| Calibration.InverseSquareSumWCC | scripts/calibrate_hplc.py:19 | with weights c⁻², Σw·c² is the number of points |
| Calibration.InverseSquareSumWCA | scripts/calibrate_hplc.py:19 | with weights c⁻², Σw·c·a is the sum of the ratios a/c |
| Calibration.OriginSlopeIsMeanRatio | scripts/calibrate_hplc.py:33 | through the origin with weights c⁻², the slope is the mean of area/concentration |
| Calibration.DeviationRatioSquared | scripts/calibrate_hplc.py:13-14 | (residual/fitted)² is non-negative or +inf or NaN, and for a zero residual it is 0 or NaN (0/0) |
| Calibration.RatioSquares | scripts/calibrate_hplc.py:14 | the NaN-skipping sum of squared ratios is finite and non-negative, or +inf |
| Calibration.PerfectFitRatios | scripts/calibrate_hplc.py:10-14 | for data on the fitted line, the sum of squared deviation ratios is 0 |
| Calibration.PerfectFitSsr | scripts/calibrate_hplc.py:33-35 | for data on a line, that line's residual sum of squares is 0 |
| Calibration.OriginFit | scripts/calibrate_hplc.py:33-50 | without an intercept: intercept 0, slope solving Σw·c²·b = Σw·c·a, one observation per point, limit of detection NaN, squared RSE over n − 1 degrees of freedom, and R² centred exactly when every concentration is the same (the design then holds a constant column) |
| Calibration.InterceptFit | scripts/calibrate_hplc.py:41-49 | with an intercept: the coefficients solve both normal equations, one observation per point, limit of detection NaN, squared RSE over n − 2 degrees of freedom |
| Calibration.Fit | scripts/calibrate_hplc.py:31-38 | the fit fails exactly when its design is degenerate: no points through the origin, or a single concentration with an intercept; otherwise there is one observation per point |
| Calibration.FitIsLeastSquares | scripts/calibrate_hplc.py:31-46 | the reported coefficients minimise the weighted residual sum of squares among all coefficients of the chosen model |
| Calibration.OriginFitIsMeanRatio | scripts/calibrate_hplc.py:45-46 | the reported slope through the origin is the mean of area/concentration |
| Calibration.PerfectFitRse | scripts/calibrate_hplc.py:10-14 | a perfect fit has a zero relative standard error for any non-zero degrees of freedom |
| Calibration.PerfectFitRSquared | scripts/calibrate_hplc.py:50 | a perfect fit has R² = 1 wherever R² is defined |
| Calibration.PerfectOriginFit | scripts/calibrate_hplc.py:33-50 | exact standards through the origin: the true slope, zero RSE beyond one point, R² = 1 where defined, and R² NaN when every concentration is the same |
| Calibration.OneConcentrationNoRSquared | scripts/calibrate_hplc.py:33-50 | exact data at one concentration has a centred total sum of squares of 0, so its R² is 0/0 = NaN |
| Calibration.PerfectInterceptFit | scripts/calibrate_hplc.py:41-50 | exact standards on a line: the true intercept and slope, zero RSE beyond two points, and R² = 1 where defined |
| Calibration.PerfectFit | scripts/calibrate_hplc.py:31-50 | standards lying on a line are calibrated to that line under either policy, with zero RSE and R² = 1 where defined; through the origin at a single concentration R² is NaN |
| Calibration.GetCalibration | scripts/calibrate_hplc.py:16-52 | no row exactly when at most one standard is usable; a policy failure exactly when the usable rows carry several flags; a fit failure exactly when the design is degenerate; otherwise the fit under the policy the flag selects (0 = through the origin) |
| Calibration.Group | scripts/calibrate_hplc.py:67 | a group holds only standards of the data with the group's key, and every standard with that key is in it |
| Calibration.GroupAppend | scripts/calibrate_hplc.py:67 | grouping distributes over concatenation, so a group keeps the data's order and its repeated rows |
| Calibration.CalibrateAll | scripts/calibrate_hplc.py:67-68 | succeeds exactly when every group calibrates without failure; then every output row is its group's calibration, and every group with a row is in the output; on failure some group failed with that error |
| Calibration.CalibrateAllAppend | scripts/calibrate_hplc.py:67-68 | the run over two lists of keys is the first list's outcome, then the second's: the first failure wins, and the rows follow the key order |
| Calibration.CalibrateEveryGroup | scripts/calibrate_hplc.py:66-68 | over the groupby's keys (each once, exactly those of the data) every group is non-empty, the run succeeds exactly when every standard's group calibrates, and every standard whose group has a row finds that row under its key |
| Calibration.OneRowPerGroup | scripts/calibrate_hplc.py:67-68 | with distinct group keys, no key appears twice in the output |
| HplcQc.UnknownMoleculeNotFitted | scripts/qc_hplc.py:9-24 | the left join gives a molecule the table lacks a NaN retention constant, so `dropna` removes its peak from every fit |
| HplcQc.UsableOnly | scripts/qc_hplc.py:9 | `dropna` keeps only peaks with a retention constant and a retention time, and every such peak |
| HplcQc.UsableOnlyAppend | scripts/qc_hplc.py:9 | the filter distributes over concatenation, so it keeps the peaks in order |
| HplcQc.UnitWeightCount | scripts/qc_hplc.py:15 | an unweighted fit's Σw is the number of points |
| HplcQc.SumSquaredDeviationsIsQuadForm | scripts/qc_hplc.py:15 | Σ(x − m)² is the moment quadratic at (−m, 1) |
| HplcQc.SumCrossDeviationsIsCrossForm | scripts/qc_hplc.py:15 | Σ(x − mx)(y − my) is the moment cross form |
| HplcQc.SxxIsDet | scripts/qc_hplc.py:15 | n·Σ(x − x̄)² is the determinant of the normal equations |
| HplcQc.SxyIsNumerator | scripts/qc_hplc.py:15 | n·Σ(x − x̄)(y − ȳ) is the slope numerator of Cramer's rule |
| HplcQc.CentredAlgebra | scripts/qc_hplc.py:15 | the centred slope and intercept solve the normal equations |
| HplcQc.CentredLineSolves | scripts/qc_hplc.py:15 | for two or more distinct x, (ȳ − slope·x̄, Sxy/Sxx) solves the normal equations of the points |
| HplcQc.SxxZeroIffOneX | scripts/qc_hplc.py:11-15 | Σ(x − x̄)² vanishes exactly when every retention constant is the same |
| HplcQc.CentredLine | scripts/qc_hplc.py:15 | the centred closed form solves the normal equations |
| HplcQc.Linregress | scripts/qc_hplc.py:15 | the line is undefined exactly when there are no points or a single distinct x, and otherwise solves the normal equations |
| HplcQc.LinregressMinimises | scripts/qc_hplc.py:15 | the line has a sum of squared residuals no larger than any other line's |
| HplcQc.LinregressExact | scripts/qc_hplc.py:15 | points on a line with two distinct x give back exactly that line |
| HplcQc.LinregressResidualsCancel | scripts/qc_hplc.py:15-17 | the retention times' departures from the line sum to zero |
| HplcQc.RelativeDeviation | scripts/qc_hplc.py:17 | the deviation is finite exactly when the expected time is non-zero; over a zero expected time it is NaN exactly when the tip is 0; a tip on the line gives 0 or NaN |
| HplcQc.RelativeDeviationScales | scripts/qc_hplc.py:16-17 | a finite deviation d says tip − expected = d·expected |
| HplcQc.RetentionDeviation | scripts/qc_hplc.py:8-18 | one deviation per usable peak, in order, each paired with its peak |
| HplcQc.KeptDeviations | scripts/qc_hplc.py:12-17 | one deviation per peak left after `dropna`, each paired with its peak |
| HplcQc.NoUsablePeakNoDeviation | scripts/qc_hplc.py:12-13 | a run without a usable peak yields no deviation at all, in particular no 0 |
| HplcQc.SinglePeakIsNaN | scripts/qc_hplc.py:11-15 | a run with one usable peak gets a NaN deviation |
| HplcQc.DeviationsShareLeastSquaresLine | scripts/qc_hplc.py:15-17 | where the line is defined, every peak of the run is measured against the same line, and that line minimises the squared residuals |
| HplcQc.ExactRetentionNoDeviation | scripts/qc_hplc.py:15-17 | retention times lying exactly on a line of the constants deviate by 0, or by 0/0 where the line is 0 |
| HplcQc.PlatesHph | scripts/qc_hplc.py:29-30 | 5.54·(tip/width_50)²: never infinite, never negative, NaN for a zero width, exactly the formula for finite inputs |
| HplcQc.PlatesAh | scripts/qc_hplc.py:31 | 2π·(tip·height/area)²: never negative or −inf; a zero area under a non-zero finite numerator stays +inf |
| HplcQc.PlateColumns | scripts/qc_hplc.py:29-31 | the two assigned columns hold each peak's plates_hph (with +inf replaced) and plates_ah |
| HplcQc.RunPeaks | scripts/qc_hplc.py:24-25 | a run's peaks are the peaks with its (injection, channel) key, each joined with its constant, and every such peak is among them |
| HplcQc.RunPeaksAppend | scripts/qc_hplc.py:24-25 | selecting a run distributes over concatenation, so its peaks keep the table's order |
| HplcQc.RunRows | scripts/qc_hplc.py:24-35 | one output row per usable peak of the run, each naming that run; plates_hph is never infinite; neither plate count is negative |
| HplcQc.RunRowsExact | scripts/qc_hplc.py:15-34 | row i of a run is its i-th usable peak: that peak's molecule, its i-th deviation and its own two plate counts |
| HplcQc.PeakHasRunRow | scripts/qc_hplc.py:24-34 | every usable peak has a row in its own run, carrying its key and its plate counts |
| HplcQc.QcTable | scripts/qc_hplc.py:24-35 | every output row belongs to one of the runs; plates_hph is never infinite; neither plate count is negative |
| HplcQc.QcTableAppend | scripts/qc_hplc.py:24-27 | the table of two lists of runs is the first list's rows followed by the second's |
| HplcQc.QcTableComplete | scripts/qc_hplc.py:24-34 | every usable peak whose run is listed has a row in the table, with its key and its plate counts |
| HplcQc.QcTableExact | scripts/qc_hplc.py:24-34 | over the groupby's runs (each once, covering every peak) the table has exactly one row per usable peak, and every usable peak has its row |
| HplcQcAlignment.PlatesAtMissing | scripts/qc_hplc.py:32-34 | an index tuple that no peak's (injection_id, molecule_id, channel) key equals gets NaN for both plate counts |
| HplcQcAlignment.PlatesAtFirst | scripts/qc_hplc.py:32-34 | an index tuple equal to a peak's (injection_id, molecule_id, channel) key gets that peak's two plate counts |
| HplcQcAlignment.QcTableAsWritten | scripts/qc_hplc.py:24-35 | the script fails at `.to_frame()` exactly when there are runs and all of them have the same molecule index; otherwise it has the intended table's rows, keys and deviations, with each row's plates looked up at (injection_id, channel, molecule_id) in the (injection_id, molecule_id, channel) index |
| HplcQcAlignment.QcTableRowsFromPeaks | scripts/qc_hplc.py:24-27 | every row of the intended table is the row of a usable peak whose run is listed, with that peak's key and its own plate counts |
| HplcQcAlignment.MeasuredPlatesFinite | scripts/qc_hplc.py:29-31 | when every peak has finite measurements and a non-zero width and area, every plate count of the intended table is finite |
| HplcQcAlignment.PlatesLostWithoutCoincidence | scripts/qc_hplc.py:32-34 | unless some molecule id is also a channel label, every plate cell the script writes is NaN |
| HplcQcAlignment.TwoRunsPlatesLost | scripts/qc_hplc.py:24-34 | two runs of channel `A` with the standards `acetate` and `butyrate`: the intended table has two rows with finite plate counts; the script writes the same two rows with every plate cell NaN |
| HplcQcAlignment.OneRunFails | scripts/qc_hplc.py:24-27 | a peak table of a single run with a usable peak makes the script fail at `.to_frame()`, while the intended table has one row per usable peak |
| LcsExport.UnzipRoundTrip | scripts/parse_lcs_export.py:20-62 | the kept export columns and their output names, zipped position by position, are the renaming table again |
| LcsExport.RenamingIsOneToOne | scripts/parse_lcs_export.py:20-62 | no two export columns and no two output names coincide, and none is `molecule_id` |
| LcsExport.Rename | scripts/parse_lcs_export.py:109-110 | a column is renamed exactly when it is kept, to the name at its position |
| LcsExport.MoleculeId | scripts/parse_lcs_export.py:112 | `molecule_id` is the block name lower-cased: same length, each capital replaced by its small letter, every other character kept |
| LcsExport.MoleculeIdIgnoresCase | scripts/parse_lcs_export.py:112 | block names differing only in the case of their letters give the same `molecule_id` |
| LcsExport.OutputColumns | scripts/parse_lcs_export.py:115-123 | the output is the renamed columns and `molecule_id`, then every constant's key that is not already among them, each once, and nothing else |
| LcsExport.SplitConstant | scripts/parse_lcs_export.py:74 | a pair splits exactly when it holds `=`: the key (free of `=`) before the first one, the rest as the value |
| LcsExport.ParseConstants | scripts/parse_lcs_export.py:74 | the constants parse exactly when every pair holds `=`; otherwise the failure names a pair without one |
| LcsExport.ConstantRoundTrip | scripts/parse_lcs_export.py:74 | KEY=VALUE with KEY free of `=` parses back to that key and value |
| LcsExport.LastConstantWins | scripts/parse_lcs_export.py:74 | a repeated key keeps its first position and takes its last value |
| LcsExport.WithConstants | scripts/parse_lcs_export.py:122-123 | every row gets every constant's value, and its other columns are kept |
| LcsExport.NameLineRoundTrip | scripts/parse_lcs_export.py:86-95 | a line `Name`, one separator, a name and one final character is a Name line, and reading its name gives that name back |
| LcsExport.ScanVariables | scripts/parse_lcs_export.py:87-95 | after a prefix, `name` is that of the last Name line and `start` is two past the last ID line, None before the first |
| LcsExport.ScanFileLoop | scripts/parse_lcs_export.py:84-102 | the loop over one file's lines computes the scan of that file |
| LcsExport.NoIdLineNoTables | scripts/parse_lcs_export.py:97-99 | a file without an ID line reports no tables and leaves the map unchanged |
| LcsExport.ScanFailsIffNameBeforeFirstId | scripts/parse_lcs_export.py:89-90 | the `start != None` assertion fails exactly when a non-empty name is current at the first ID line |
| LcsExport.IdLineClosesBlock | scripts/parse_lcs_export.py:88-93 | an ID line at i records the current name's block from two past the previous ID line to i − 2 |
| LcsExport.LastBlockClosedAtEnd | scripts/parse_lcs_export.py:96-102 | after the last line, the current name's block runs from two past the last ID line to the last line index |
| LcsExport.ScanKeepsNames | scripts/parse_lcs_export.py:76-92 | the map is never cleared: every name recorded before a file stays recorded after it |
| LcsExport.ReadsOf | scripts/parse_lcs_export.py:104-107 | one read per name in the map, in map order, each at that name's bounds; every recorded block is read, none twice |
| LcsExport.ParseExport | scripts/parse_lcs_export.py:82-113 | the loop over the files computes the export as written: one shared map, and after each file with tables a read of every block in the map |
| LcsExport.StaleBlockReadFromLaterFile | scripts/parse_lcs_export.py:76-113 | with the shared map, a second file is asked for the first file's block, which its own scan does not contain |
| LcsExport.ExportPerFile | scripts/parse_lcs_export.py:82-113 | with a fresh map per file, every read names a block of that file's own scan, at its own bounds |
| LcsExport.ExportPerFileExact | scripts/parse_lcs_export.py:82-113 | with a fresh map per file, every block of every file with tables is read at its own bounds, the files are read in order, and no (file, molecule) pair is read twice |
| LcsExport.SingleFileReadsAgree | scripts/parse_lcs_export.py:82-113 | for a single file, the reads as written are exactly the per-file reads |
| LcsExport.ExportErrorSticks | scripts/parse_lcs_export.py:89-90 | a failed assertion ends the whole run: later files change nothing |
| CountTable.LibraryIdsOfHeader | scripts/pivot_count_table.py:10 | a header of two column names and then library ids, separated by any whitespace, gives back exactly those library ids |
| CountTable.PivotCountTable | scripts/pivot_count_table.py:8-18 | the nested loops print exactly the rows of the run, and stop at a missing header or a short line |
| CountTable.EmitLine | scripts/pivot_count_table.py:15-18 | the inner loop appends the rows of the zipped (library, tally) pairs, truncated to the shorter list |
| CountTable.EmitSound | scripts/pivot_count_table.py:15-17 | every row of a line has level `unique`, the line's taxon, and a tally other than `'0'` taken from the same position as its library |
| CountTable.EmitComplete | scripts/pivot_count_table.py:15-17 | every pair whose tally is not `'0'` is printed |
| CountTable.EmitCount | scripts/pivot_count_table.py:15-16 | one row per pair whose tally is not `'0'` |
| CountTable.DataRunSound | scripts/pivot_count_table.py:13-18 | every printed row has level `unique`, a tally other than `'0'`, and comes from some data line |
| CountTable.DataRunComplete | scripts/pivot_count_table.py:13-18 | in a successful run, every non-`'0'` tally within both lists is printed with its library id and its line's taxon |
| CountTable.DataRunSucceeds | scripts/pivot_count_table.py:14 | a run succeeds exactly when every data line has at least two tokens |
| CountTable.FailsAtFirstShortLine | scripts/pivot_count_table.py:14 | a run stops at the first line with fewer than two tokens, after printing the rows of the lines before it |
| CountTable.RowsAreTokens | scripts/pivot_count_table.py:14-17 | every printed field is a single whitespace-free token when the library ids are |
| CountTable.OutputStartsWithHeader | scripts/pivot_count_table.py:11-12 | the output starts with the header, which splits on tab into the four column names, followed by one line per row |
| CountTable.OutputRowsParseBack | scripts/pivot_count_table.py:17-18 | every printed row line splits on tab back into library, `unique`, taxon and tally |
| SharedFile.Stack | scripts/stack_shared.py:9-18 | the reshaping fails exactly when the Group, label or numOtus column is missing |
| SharedFile.RowRecordsSound | scripts/stack_shared.py:16-18 | each record of a row names the row's library and level, and a kept cell of a taxon column |
| SharedFile.RowRecordsComplete | scripts/stack_shared.py:16-18 | every kept cell of a taxon column gives a record of its row |
| SharedFile.RecordsSound | scripts/stack_shared.py:16-18 | every record comes from a kept taxon cell of some row |
| SharedFile.RecordsComplete | scripts/stack_shared.py:16-18 | every kept taxon cell of every row is a record |
| SharedFile.StackExact | scripts/stack_shared.py:9-18 | the records are exactly the kept, non-zero taxon cells, each with its row's Group as library and `otu-` + label as level; Group, label and numOtus never appear as taxa |
| SharedFile.RowRecordsCount | scripts/stack_shared.py:17-18 | each row gives one record per kept taxon cell |
| SharedFile.NoTaxonColumnsNoRecords | scripts/stack_shared.py:9-17 | a table with only the three bookkeeping columns stacks to nothing |
| OtuTaxonomy.LevelCount | scripts/parse_otu_taxonomy.py:28 | the number of levels is the `;` count of the first string, its split length minus one |
| OtuTaxonomy.Pieces | scripts/parse_otu_taxonomy.py:30-31 | stripping `;` and splitting gives at least one piece |
| OtuTaxonomy.PieceTable | scripts/parse_otu_taxonomy.py:29-32 | each OTU's pieces hold no `;` and join back with `;` into its string stripped of outer `;` |
| OtuTaxonomy.Width | scripts/parse_otu_taxonomy.py:32 | the spread table is as wide as the longest piece list |
| OtuTaxonomy.PieceRow | scripts/parse_otu_taxonomy.py:38-41 | a stacked piece yields a row with the command-line level, a taxon name free of `(`, and a confidence exactly when the `)`-stripped piece holds `(` |
| OtuTaxonomy.Expand | scripts/parse_otu_taxonomy.py:38-41 | one row per stacked cell, in order, keeping its OTU and level name, with the command-line level, a taxon name free of `(`, and a confidence exactly when the `)`-stripped piece holds `(` |
| OtuTaxonomy.Dedup | scripts/parse_otu_taxonomy.py:46 | `drop_duplicates` keeps the same rows, each once |
| OtuTaxonomy.DedupFirstOccurrences | scripts/parse_otu_taxonomy.py:46 | `drop_duplicates` keeps exactly the first occurrence of every row, in input order |
| OtuTaxonomy.Parse | scripts/parse_otu_taxonomy.py:28-46 | an empty table fails; a width other than the number of level names fails with both counts |
| OtuTaxonomy.StackedExact | scripts/parse_otu_taxonomy.py:29-37 | `stack()` keeps exactly the non-blank pieces, each under its position's level name |
| OtuTaxonomy.ParseIsFinish | scripts/parse_otu_taxonomy.py:29-46 | after the width check, the script stacks the piece table, splits the cells and drops duplicates |
| OtuTaxonomy.FinishExact | scripts/parse_otu_taxonomy.py:38-46 | the finished rows are exactly the split cells, each once |
| OtuTaxonomy.ParseExact | scripts/parse_otu_taxonomy.py:28-46 | the output rows are exactly the split non-blank pieces, each named by its position's level, with no row twice |
| OtuTaxonomy.ParseRowsShape | scripts/parse_otu_taxonomy.py:38-45 | every output row carries the command-line level, a taxon name free of `(` and one of the eight level names |
| OtuTaxonomy.NoParenthesesFails | scripts/parse_otu_taxonomy.py:38-40 | a table in which no piece holds `(` has no confidence column and fails |
| OtuTaxonomy.EntryRoundTrip | scripts/parse_otu_taxonomy.py:38 | `name(conf)` splits back into its name and confidence |
| OtuTaxonomy.TaxonomyRoundTrip | scripts/parse_otu_taxonomy.py:28-31 | a MOTHUR string of k entries with a trailing `;` has k levels and splits back into its entries |
| NamesTaxonomy.Members | scripts/parse_names_as_taxonomy.py:14 | the stripped member list splits into one more member than it has commas |
| NamesTaxonomy.ParseLine | scripts/parse_names_as_taxonomy.py:13-14 | a line unpacks exactly when it holds one tab, into the field before it and the members of the field after it |
| NamesTaxonomy.LineRoundTrip | scripts/parse_names_as_taxonomy.py:13-14 | a line written as representative, tab, comma-joined members (ids free of tab, comma and whitespace) parses back into them |
| NamesTaxonomy.EntryTabFree | scripts/parse_names_as_taxonomy.py:13-14 | the representative and the members of a parsed line hold no tab |
| NamesTaxonomy.ExpandNames | scripts/parse_names_as_taxonomy.py:11-15 | the nested loops print the rows of the expansion and stop at the first malformed line |
| NamesTaxonomy.ExpandParsed | scripts/parse_names_as_taxonomy.py:12-15 | the outer loop computes the expansion of the parsed lines |
| NamesTaxonomy.AppendMemberRows | scripts/parse_names_as_taxonomy.py:14-15 | the inner loop appends one row per member, in order |
| NamesTaxonomy.BadLineSticks | scripts/parse_names_as_taxonomy.py:13 | after a malformed line, later lines change nothing |
| NamesTaxonomy.MemberRowsExact | scripts/parse_names_as_taxonomy.py:14-15 | row i is (member i, level, representative, level b, `100`) |
| NamesTaxonomy.EmptyMembersOneRow | scripts/parse_names_as_taxonomy.py:13-15 | an empty member field still yields one member, the empty taxon id |
| NamesTaxonomy.WellFormedExpands | scripts/parse_names_as_taxonomy.py:11-15 | a file whose every line holds one tab expands without failure into one row per member |
| NamesTaxonomy.FirstBadLine | scripts/parse_names_as_taxonomy.py:13 | the script stops exactly at the first line whose tab count is not one, keeping the rows before it |
| NamesTaxonomy.OutputStartsWithHeader | scripts/parse_names_as_taxonomy.py:10 | the first printed line splits back into the five column names |
| NamesTaxonomy.RowsShape | scripts/parse_names_as_taxonomy.py:15 | every row carries both level arguments, confidence `100` and tab-free ids |
| NamesTaxonomy.OutputRowParsesBack | scripts/parse_names_as_taxonomy.py:15 | every printed row splits back into its five fields |
| OtuNames.Fields | scripts/otus_to_names_file.py:11 | the fields from the third on hold no tab |
| OtuNames.OtusToNames | scripts/otus_to_names_file.py:8-19 | the scan with its `break`, then the output loop, computes the script's result |
| OtuNames.PrintPairs | scripts/otus_to_names_file.py:18-19 | the output loop prints one line per position of the shorter list |
| OtuNames.ScanStopsAt | scripts/otus_to_names_file.py:9-14 | the scan stops at the first row for the label, with its groups and the names of the last header before it |
| OtuNames.ScanMisses | scripts/otus_to_names_file.py:15-16 | with no row for the label, the scan ends in the label-not-found error |
| OtuNames.NotFoundExactly | scripts/otus_to_names_file.py:12-16 | the label is not found exactly when no non-header line starts with it |
| OtuNames.FirstRowUsed | scripts/otus_to_names_file.py:9-19 | the first row's groups are paired with the last earlier header's names; with no earlier header the script fails |
| OtuNames.HeaderLabelNeverFound | scripts/otus_to_names_file.py:10-12 | a label that itself starts with `label` is never found, since the header test comes first |
| OtuNames.PrefixRowUsed | scripts/otus_to_names_file.py:12 | matching is by prefix: a row whose first field merely starts with the label is used |
| OtuNames.ZipExact | scripts/otus_to_names_file.py:18-19 | line i is name i, a tab, and group i stripped |
| OtuNames.OutputParsesBack | scripts/otus_to_names_file.py:18-19 | every printed line splits on its tab back into the name and the stripped group, one line per position of the shorter list |
| OtuNames.ScanFieldsTabFree | scripts/otus_to_names_file.py:11-13 | the names and groups the scan collects hold no tab |
| RrsMakefile.Insert | scripts/generate_rrs_makefile.py:15 | insertion adds exactly the new group name |
| RrsMakefile.InsertSorted | scripts/generate_rrs_makefile.py:15 | insertion keeps the group names sorted and distinct |
| RrsMakefile.GenerateMakefile | scripts/generate_rrs_makefile.py:7-23 | the two loops print exactly the Makefile |
| RrsMakefile.GroupRules | scripts/generate_rrs_makefile.py:15-23 | the second loop prints each group's four lines, in key order |
| RrsMakefile.LibraryRules | scripts/generate_rrs_makefile.py:11-12 | the first loop prints one download rule per library row |
| RrsMakefile.GroupKeys | scripts/generate_rrs_makefile.py:15 | the loop collects the sorted, distinct group names |
| RrsMakefile.GroupMembers | scripts/generate_rrs_makefile.py:16 | the loop collects the group's libraries in row order |
| RrsMakefile.LibraryLinesExact | scripts/generate_rrs_makefile.py:11-12 | one download rule per library, each its own, in row order |
| RrsMakefile.GroupBlocksLength | scripts/generate_rrs_makefile.py:15-23 | four lines per group |
| RrsMakefile.GroupBlockAt | scripts/generate_rrs_makefile.py:15-23 | the k-th group's block sits at lines 4k to 4k+3 |
| RrsMakefile.KeysExact | scripts/generate_rrs_makefile.py:15 | the group names are sorted, distinct, and exactly those of the rows |
| RrsMakefile.SortedUnique | scripts/generate_rrs_makefile.py:15 | two sorted lists with the same elements are equal |
| RrsMakefile.KeysAreTheSortedGroups | scripts/generate_rrs_makefile.py:15 | any sorted list of exactly the rows' group names is the list of keys |
| RrsMakefile.MembersExact | scripts/generate_rrs_makefile.py:15-16 | a library is among a group's members exactly when the join has that row |
| RrsMakefile.LibrariesFirst | scripts/generate_rrs_makefile.py:11-15 | every download rule comes before any group rule, and the Makefile has four lines per group after them |
| RrsMakefile.GroupRulesAt | scripts/generate_rrs_makefile.py:16-23 | the k-th group has its `.fn` rule, a `cat $^ > $@` recipe, its `.groups` rule and a recipe |
| RrsMakefile.PrerequisitesParseBack | scripts/generate_rrs_makefile.py:16-20 | each prerequisite list splits on spaces back into one file per library when library ids hold no space |
| PlotHelpers.ParsePair | scripts/plot_hplc_calibration.py:35-36 | a selector unpacks exactly when it holds exactly one `=`, into the stripped text before it and the stripped text after it |
| PlotHelpers.PairRoundTrip | scripts/plot_hplc_calibration.py:35-36 | `KEY=VALUE` with no other `=` parses into the stripped key and the stripped value |
| PlotHelpers.ParseSelectors | scripts/plot_hplc_calibration.py:32-37 | the loop builds the selector dictionary or stops at the first selector that does not unpack |
| PlotHelpers.FailureSticks | scripts/plot_hplc_calibration.py:35 | after a failed selector, the later ones change nothing |
| PlotHelpers.GetPut | scripts/plot_hplc_calibration.py:36 | writing a key gives it the new value and leaves every other key unchanged |
| PlotHelpers.PutColumns | scripts/plot_hplc_calibration.py:36 | writing keeps the keys distinct and adds only the written key |
| PlotHelpers.SelectorsSucceed | scripts/plot_hplc_calibration.py:32-37 | parsing succeeds exactly when every selector holds exactly one `=` |
| PlotHelpers.LastValueWins | scripts/plot_hplc_calibration.py:33-37 | each stripped key maps to the stripped value of its last selector, and is held once |
| PlotHelpers.SubsetRows | scripts/plot_hplc_calibration.py:39-47 | the loop that reassigns the table once per selector computes the selection |
| PlotHelpers.SubsetFailureSticks | scripts/plot_hplc_calibration.py:40-46 | after a missing column, the later selectors change nothing |
| PlotHelpers.SubsetExact | scripts/plot_hplc_calibration.py:39-47 | selection fails exactly when some selector names a missing column, and otherwise keeps, in order, exactly the rows equal to every selector's value |
| PlotHelpers.MatchingAll | scripts/plot_hplc_calibration.py:39-47 | with no selector, every row is kept |
| PlotHelpers.MatchingMembers | scripts/plot_hplc_calibration.py:39-47 | a kept row is a row of the table that matches every selector, and every such row is kept |
| PlotHelpers.CeilDiv | scripts/plot_hplc_calibration.py:82 | ⌈n/w⌉ is the least q with q·w ≥ n |
| PlotHelpers.CeilSqrt | scripts/plot_hplc_calibration.py:85 | ⌈√n⌉ is the least r with r·r ≥ n |
| PlotHelpers.GridFailsOnlyWhenEmpty | scripts/plot_hplc_calibration.py:80-87 | only zero plots fail, by a division by zero |
| PlotHelpers.GridFits | scripts/plot_hplc_calibration.py:80-87 | the grid holds every plot and has no spare row |
| PlotHelpers.GridBoundedWidth | scripts/plot_hplc_calibration.py:81-83 | with `dim_max`, the grid is min(n, dim_max) wide, so never wider than `dim_max` |
| PlotHelpers.GridSquare | scripts/plot_hplc_calibration.py:84-86 | without `dim_max`, the grid is ⌈√n⌉ wide and no higher than it is wide |
| MouseData.CarbonCount | scripts/lib/data.py:24-25 | every molecule has at least two carbons |
| MouseData.GlucoseExcluded | scripts/lib/data.py:28 | glucose never enters `fermented_c`: changing or dropping a mouse's glucose leaves it unchanged |
| MouseData.CarbonSharesSumToOne | scripts/lib/data.py:27-29 | with a non-zero `fermented_c`, the fractions are finite and the carbon shares of the five products add up to one |
| MouseData.NoFermentation | scripts/lib/data.py:29 | with a zero `fermented_c`, a fraction is NaN for a zero concentration and infinite otherwise |
| MouseData.ScfaFractionsSumToOne | scripts/lib/data.py:30-33 | with a non-zero total, the three SCFA fractions are finite and add up to one |
| MouseData.Clamp | scripts/lib/data.py:68 | the clamp is non-negative and keeps non-negative values |
| MouseData.Rabund | scripts/lib/data.py:64 | with a non-zero row total each relative abundance is finite and times the total gives the abundance back; with a zero total it is NaN for a zero abundance and infinite otherwise |
| MouseData.Dead | scripts/lib/data.py:111 | `dead` is defined exactly for censored 0.0 or 1.0, and true exactly for 0.0 |
| MouseData.Sanitize | scripts/lib/data.py:47 | the name keeps its length, every `-` and `.` becomes `_`, and every other character is kept |
| MouseData.Site | scripts/lib/data.py:89 | `JL` becomes `TJL`, every other site is kept, so no site is `JL` afterwards |
| MouseData.ClampColumn | scripts/lib/data.py:68 | the masked assignment clamps every cell of the column in place |
| MouseData.UnclassifiedColumn | scripts/lib/data.py:66-68 | each mouse's `unclassified` cell is the clamped remainder of its row |
| MouseData.SumSplits | scripts/lib/data.py:66-67 | the total splits into the classified and unclassified parts |
| MouseData.SumWhereNonNegative | scripts/lib/data.py:66-68 | a partial sum of non-negative abundances is non-negative |
| MouseData.UnclassifiedIsRemainder | scripts/lib/data.py:66-68 | for non-negative abundances the clamp never fires, and `unclassified` is exactly the abundance of the OTUs without a family |
| MouseData.NanSumShare | scripts/lib/data.py:69-70 | the classified relative abundances sum to the classified share of the total |
| MouseData.RabundSumsToOne | scripts/lib/data.py:64 | a row with a non-zero total has finite relative abundances summing to one |
| MouseData.NothingUnclassified | scripts/lib/data.py:66-67 | when every OTU has a family, the unclassified part is zero |
| MouseData.RelUnclassifiedIsShare | scripts/lib/data.py:69-71 | for non-negative abundances with a positive total, the relative `unclassified` is the unclassified share and the clamp never fires |
| MouseData.AllZeroMouse | scripts/lib/data.py:64-71 | a mouse whose abundances are all zero has NaN relative abundances, and its relative `unclassified` is one |
| MouseData.SanitizeIdempotent | scripts/lib/data.py:47 | sanitising twice is sanitising once |
| MouseData.CountRemainder | scripts/lib/data.py:130-131 | the unclamped `unclassified` count is exactly the tally of the OTUs without a family |
| MouseData.ClampKeeps | scripts/lib/data.py:68 | the clamp keeps exactly the non-negative values and zeroes exactly the non-positive ones |
| Plotting.SignificanceSymbol | scripts/lib/plotting.py:214-222 | no mark for p ≥ 0.10, the dagger for 0.05 ≤ p < 0.10, one star for 0.001 ≤ p < 0.05, and two stars for everything else, NaN included |
| Plotting.SmallerIsStronger | scripts/lib/plotting.py:214-222 | a smaller p-value never gets a weaker mark |
| Plotting.Bands | scripts/lib/plotting.py:214-222 | the four bands, by their bounds, for finite p-values |
| Plotting.NonFiniteMarks | scripts/lib/plotting.py:221-222 | NaN and −inf get two stars, and +inf gets none |
| Plotting.MmToInch | scripts/lib/plotting.py:231 | inches times 25.4 give the millimetres back |
| Plotting.FullIsTwoHalves | scripts/lib/plotting.py:231-234 | fullwidth is exactly twice halfwidth, and both are smaller than fullheight |
| Plotting.MmToInchAdds | scripts/lib/plotting.py:231 | the conversion adds: two panels side by side are as wide as the sum of their widths |
| Plotting.LoadStyle | scripts/lib/plotting.py:186-264 | only `paper` and `poster` load, each with its own context; any other name raises NotImplementedError naming it |
| Plotting.PosterOutweighsPaper | scripts/lib/plotting.py:237-262 | both styles use inward ticks on a 4×3 figure at the same widths; the poster style has the higher resolution and heavier lines and ticks |

## Left out

- File and database I/O: `read_table`, `read_sql`, `to_csv`, sqlite connections, `sys.argv` and stdout/stderr writes. Their inputs are parameters, and their outputs are the returned rows or lines.
- The numerical solvers of statsmodels `wls` and scipy `linregress`. The fits are stated by their normal equations and closed forms over exact reals. There is no rounding, signed zero or overflow.
- Calibration.Fit: reports a failure for an intercept design with a single concentration. statsmodels would fit through a pseudo-inverse instead, and singular-matrix handling is outside the model.
- Calibration.OriginFit: states the squared relative standard error, since the square root is not modelled. The same holds for Calibration.InterceptFit.
- Calibration.GetCalibration: the printing of the failing frame to stderr before a fit error is re-raised is left out, as it is output only.
- Calibration.CalibrateAll: takes the groupby's key list as a parameter and visits it in the order given. pandas sorts the keys, and that sorting is not modelled. That the list holds each key of the data once is the condition of Calibration.CalibrateEveryGroup.
- HplcQc.RetentionDeviation: a run with an infinite retention constant or time gets NaN for every peak. scipy's NaN arithmetic on such data is not modelled value by value.
- HplcQc.QcTable: takes the groupby's run list as a parameter, in the order given; that it holds each run of the peaks once is the condition of HplcQc.QcTableExact. It is the intended table: each row carries its own peak's plate counts, and it exists also when every run has the same molecules. The script's own output is HplcQcAlignment.QcTableAsWritten (see ## Findings).
- HplcQc.RunRows: states the intended alignment, each row with its own peak's plate counts. The script writes the plates looked up by position across the two indexes, which is HplcQcAlignment.QcTableAsWritten.
- HplcQc.RunRowsExact: states the intended alignment; the script's plate cells are those of HplcQcAlignment.QcTableAsWritten.
- HplcQc.PeakHasRunRow: states the intended alignment; in the script's output the row keeps the peak's key but its plate cells are those of HplcQcAlignment.QcTableAsWritten.
- HplcQc.QcTableComplete: states the intended table. The script fails when every run has the same molecules, and otherwise its plate cells are those of HplcQcAlignment.QcTableAsWritten.
- HplcQc.QcTableExact: states the intended table. The script fails when every run has the same molecules, and otherwise its plate cells are those of HplcQcAlignment.QcTableAsWritten.
- HplcQcAlignment.QcTableAsWritten: a peak table with no runs is taken to give an empty table; what pandas' `apply` and `.to_frame()` do with no groups is not modelled. Repeated (injection, molecule, channel) keys, which make the reindex raise, are not modelled: the lookup takes the first peak with the key. The index comparison is on the molecule ids in order, as `Index.equals` does, with no dtype differences.
- The `retention_deviation` column assignments and the `set_index`/`reset_index` calls: modelled as functions returning rows, because the frame edits are not observable apart from the rows they produce.
- The pandas re-read of each LC Solutions block (parse_lcs_export.py:104-113) is modelled only as the list of block requests (file, molecule, bounds). The table contents and the `'-----'` missing values are left out.
- `pd.concat` and the empty-frame branch of parse_lcs_export.py:117-121 are represented only by the output column list.
- SharedFile.Stack: label values are rendered as text or integers. pandas' rendering of float labels such as `0.03` is not modelled.
- OtuTaxonomy.Parse: the in-place `rename`, `set_index` and `drop` calls are modelled on values, and the `Size` column is not part of the input.
- OtuTaxonomy.Parse: pandas' KeyError and ValueError messages are reduced to the three failure cases.
- The callable-selector branch of `subset` (a value that is a function) is left out, because the command line only produces strings.
- RrsMakefile.LibraryRules: the SRA id is treated as text. pandas' rendering of a missing id as `None` is not modelled.
- MouseData.Amount: reads a molecule missing from a mouse's measurements as 0, which is what `fill_value=0` gives when some other mouse has it. When no mouse has one of the six molecules, `conc[mols]` at scripts/lib/data.py:27 raises a KeyError; the model treats that as a precondition on database contents and does not reproduce the failure.
- MouseData.Rabund: divides each row by its own total, exactly as the lambda does. Other columns of the frame are not modelled.
- The SQL filters of the mouse data loader (the taxonomy confidence, level and unclassified filters, and the library joins) are part of the queries and are left out.
- The `assert index.is_unique` and `len(censored.unique()) <= 3` checks of the mouse data loader are preconditions on database contents, and are left out.
- All figure code: matplotlib and seaborn calls, jitter, `savefig`, and the colour and marker maps of `load_style`. It is drawing only and has no effect on the values modelled.
- Non-ASCII whitespace beyond the first 256 code points, and Unicode case folding: `Text` treats ASCII and Latin-1 whitespace only, and lower-cases ASCII letters only.

## Edge cases

- scripts/qc_hplc.py:15: a run with a single usable peak gets a NaN deviation (HplcQc.SinglePeakIsNaN).
- scripts/qc_hplc.py:12-13: a run with no usable peak yields no deviation rows at all (HplcQc.NoUsablePeakNoDeviation).
- scripts/qc_hplc.py:29-31: only `plates_hph` has +inf replaced; `plates_ah` keeps its infinities (HplcQc.PlatesAh).
- scripts/calibrate_hplc.py:28 and 36-38: a failing calibration group aborts the whole run; failures are not collected per group (Calibration.CalibrateAll).

## Findings

| source | as written | input that shows it | evidently intended | confidence | as-written member | corrected member |
|---|---|---|---|---|---|---|
| scripts/parse_lcs_export.py:76-113 | the block map `mol_lines` is created once, before the loop over files, and every block in it is re-read from each later file | two export files, the first with a block `Acetate` and the second with a block `Lactate`: the second file is asked for `Acetate` at the first file's bounds | each file's blocks are read from that file only, from a map started afresh for each file | not executed | LcsExport.StaleBlockReadFromLaterFile | LcsExport.ExportPerFileExact |
| scripts/qc_hplc.py:32-34 | the plate columns are assigned from a frame indexed by (injection_id, molecule_id, channel) onto one indexed by (injection_id, channel, molecule_id), and the assignment matches index tuples by position | two runs of channel `A`, injection 1 with a peak of `acetate` and injection 2 with a peak of `butyrate`, all measurements finite: every plate cell written is NaN | each row carries its own peak's plate counts | not executed | HplcQcAlignment.TwoRunsPlatesLost | HplcQc.QcTableComplete |
| scripts/qc_hplc.py:24-27 | `.to_frame()` is called on the result of `groupby(...).apply(retention_deviation)`, which is a wide DataFrame, without `to_frame`, when every run returns the same molecule index | a peak table holding a single injection and channel | one row per usable peak, whatever the runs' molecules | not executed | HplcQcAlignment.OneRunFails | HplcQc.QcTableExact |
