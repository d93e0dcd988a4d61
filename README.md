# SHIELDS-PTM post-processing core in Dafny

This project models the discrete logic that surrounds the flux mapping of the
SHIELDS-PTM particle tracer's Python scripts, and proves properties of it:

- **Map files and trajectories** (`scripts/ptm_tools.py`).
  - `parse_map_file` stacks the rows of one or more map files, builds the
    sorted distinct energy and pitch-angle axes, and scatters every row into
    four energy × pitch-angle grids. This is the class `MapFile.FluxMap`,
    filled by the method `MapFile.Scatter`.
  - `parse_trajectory_file` splits a trajectory file into particle blocks.
  - `calculate_omnidirectional_flux` checks the array's shape, orients it and
    integrates it over pitch angle.
- **Access and cutoffs** (`scripts/omni_quicklook_sep.py`).
  - `find_runs` finds the maximal blocks of a value.
  - `cutoffs` computes the access fraction per energy, the low and high cutoff
    energies and the effective cutoff rigidity.
  - `calculate_omni` masks a differential-flux grid in place.
- **The post-processor** (`scripts/ptm_postprocessing.py`).
  - The `ptm_postprocessor` object, with its compounding rest energy and lazy
    defaults.
  - Its 4π integrator, the map file a run id names, and `seconds_to_hhmmss`.
  - The record order and contents of the RAM boundary file.
- **GPS lookups** (`scripts/gps_position.py`).
  - The week-string date parsing and the bisect-based file selection of
    `findDataFile`.
  - The nearest-sample choice of `getPosition`.

Conventions used throughout:

- Functions the scripts take from libraries enter as function-valued
  parameters. This covers `np.sin`, the value of π, the proton rigidity and its
  inverse, the kappa flux formula, and the text-to-number conversions.
- Files enter as maps from names to token lines.
- Instants are whole seconds counted from 2000-01-01 00:00:00.
- Errors the scripts raise (their own exceptions, and Python's IndexError,
  KeyError, ValueError and NameError) are `Common.Error` values inside
  `Common.Result`.

The modules are listed below, one file each.

| module | file | models |
|---|---|---|
| `Common` | common.dfy | results, errors, vectors, digit strings |
| `Axis` | axis.dfy | `np.sort(np.unique(...))` and `np.argwhere(v == axis)` |
| `MapFile` | map_file.dfy | `parse_map_file` |
| `Trajectory` | trajectory.dfy | `parse_trajectory_file` |
| `PitchAngle` | pitch_angle.dfy | `calculate_omnidirectional_flux` of ptm_tools |
| `Runs` | runs.dfy | `find_runs` |
| `Cutoffs` | cutoffs.dfy | `cutoffs` |
| `QuickLook` | masking.dfy | `calculate_omni` |
| `PostProcessing` | postprocessor.dfy | `ptm_postprocessor`, `write_ram_fluxes` |
| `Gps` | gps.dfy | `findDataFile`, `getPosition` |

Where the code and the intent documented around it differ, the model follows
the code:

- `ec_high` is taken at the start of the *last* block of full access.
- `Nforbid` counts the cells *with* access (see Findings).
- The field-of-view mask zeroes the cells whose angle is *below* 90 degrees.

## Model

| member | source | states |
|---|---|---|
| Common.Digits | scripts/ptm_postprocessing.py:204 | the decimal rendering of a run id is all digits, reads back as the number, and has no leading zero |
| Common.LeadingZeros | scripts/ptm_postprocessing.py:204 | zero padding does not change the value a digit string reads as |
| Axis.SortedUnique | scripts/ptm_tools.py:84-85 | an axis is strictly ascending and holds exactly the values of its column |
| Axis.AscendingListingIsUnique | scripts/ptm_tools.py:84-85 | two strictly ascending sequences with the same values are equal, so each axis is determined by its column's value set |
| Axis.IndexOf | scripts/ptm_tools.py:98-99 | the index of a value on an axis holding it, and no earlier index holds it |
| Axis.FindIndex | scripts/ptm_tools.py:98-99 | `argwhere` finds nothing exactly when the value is not on the axis; otherwise it finds an index holding exactly that value, with no earlier one |
| MapFile.ReadTable | scripts/ptm_tools.py:77-82 | a table that was read has one width for all rows, and the first file exists |
| MapFile.FirstFailureStands | scripts/ptm_tools.py:77-82 | the first failure while reading the files in order is what the whole call reports |
| MapFile.Table | scripts/ptm_tools.py:74-103 | a successful read had at least one path, its first file exists, and every row has a width the scatter loop gets through: all ten columns, or eight, whose column 7 broadcasts over the three velocity components |
| MapFile.EarlierFilesComeFirst | scripts/ptm_tools.py:80-82 | the rows of the first k files form a prefix of the combined table: files are stacked in order |
| MapFile.HeaderPosition | scripts/ptm_tools.py:87-88 | the position is the last three tokens of the first file's first line, in order, or all of its tokens when it has fewer than three |
| MapFile.LastRowAt | scripts/ptm_tools.py:97-103 | the row found for a cell is a row at that energy and angle, and there is none exactly when no row has those values |
| MapFile.LaterRowWins | scripts/ptm_tools.py:97-103 | of several rows at the same (energy, angle), the last one's values remain |
| MapFile.EveryRowHitsOneCell | scripts/ptm_tools.py:97-103 | every row's energy and angle are on the axes, and the only cell matching it is at the indices of those values |
| MapFile.FluxMap.constructor | scripts/ptm_tools.py:88-90 | the dictionary holds the position, the two axes and the four grids it is given |
| MapFile.Scatter | scripts/ptm_tools.py:97-103 | after the loop, each cell of init_E, final_E, final_x and init_v holds the values of the last row at its coordinates; a cell no row reaches keeps its value |
| MapFile.Place | scripts/ptm_tools.py:100-103 | one row writes exactly one cell in each of the four grids, and every other cell is unchanged |
| MapFile.LoadTable | scripts/ptm_tools.py:74-82 | the files are read into the table that `Table` describes, or into its error |
| MapFile.LoadFirst | scripts/ptm_tools.py:77-79 | the first file is loaded past its header and one more line, or fails as `ReadTable` of that file says |
| MapFile.StackNext | scripts/ptm_tools.py:80-82 | one more file is loaded past one line and stacked under the rows so far, exactly as `ReadTable` of one more file says |
| MapFile.ZeroReals | scripts/ptm_tools.py:94-95 | a fresh energies × angles grid of zeros |
| MapFile.ZeroVecs | scripts/ptm_tools.py:92-93 | a fresh energies × angles grid of zero vectors |
| MapFile.BuildFluxMap | scripts/ptm_tools.py:84-108 | the axes are the sorted distinct energies and angles, all four grids have shape energies × angles, and each cell holds the last row at its coordinates, or zero when no row reaches it |
| MapFile.ParseMapFile | scripts/ptm_tools.py:63-110 | fails exactly as reading the table fails; otherwise it returns fresh grids built from the rows of all files, with the first file's header position |
| Trajectory.Split | scripts/ptm_tools.py:46-56 | each block starts at a '#' line carrying its integer ID and holds only data lines; no blocks exactly for an empty file |
| Trajectory.FirstFailureStands | scripts/ptm_tools.py:46-56 | a failure on a prefix of the lines is the failure of the whole file |
| Trajectory.ParseTrajectoryFile | scripts/ptm_tools.py:46-60 | the loop returns the dictionary of the split blocks, or the first failure |
| Trajectory.OneBlockPerMarker | scripts/ptm_tools.py:42-52 | there is one block per '#' line, the count the source takes up front |
| Trajectory.SplitJoinRoundTrip | scripts/ptm_tools.py:46-56 | joining the blocks gives back the file's lines: nothing is lost or reordered |
| Trajectory.ToMapKeys | scripts/ptm_tools.py:51-58 | the dictionary's keys are exactly the blocks' particle IDs |
| Trajectory.LaterBlockWins | scripts/ptm_tools.py:51-58 | a repeated particle ID keeps the rows of its later block |
| PitchAngle.Transpose | scripts/ptm_tools.py:249 | `diffJ.T` swaps the shape and the indices of every cell |
| PitchAngle.TransposeTwice | scripts/ptm_tools.py:249 | transposing twice gives back the array |
| PitchAngle.Oriented | scripts/ptm_tools.py:249 | the array is used as is when len(pav) equals its column count, and transposed otherwise |
| PitchAngle.Integrate | scripts/ptm_tools.py:211-259 | raises exactly when len(pav) is neither dimension; otherwise there is one value per energy row of the oriented array; degrees and symmetry are the defaults |
| PitchAngle.IntegrateIsLinear | scripts/ptm_tools.py:251-259 | the integral of a·x + b·y is a times the integral of x plus b times that of y |
| PitchAngle.IntegrateZero | scripts/ptm_tools.py:251-259 | an all-zero flux integrates to zero at every energy |
| PitchAngle.OrientationIsIrrelevant | scripts/ptm_tools.py:242-249 | a non-square array and its transpose give the same result |
| PitchAngle.SymmetryDoubles | scripts/ptm_tools.py:252-254 | with `symmetry` set, every value is twice the one without it |
| PitchAngle.UniformFlux | scripts/ptm_tools.py:251-259 | a flux constant c integrates to c times the sum of the weights at every energy |
| Runs.Padded | scripts/omni_quicklook_sep.py:129 | the indicator is padded with false at both ends and marks the positions equal to `value` in between |
| Runs.FindRuns | scripts/omni_quicklook_sep.py:127-133 | every range is non-empty and lies within the vector |
| Runs.RunsAreMaximal | scripts/omni_quicklook_sep.py:127-133 | every position of a run equals `value`, and the positions just before and just after it, where they exist, do not |
| Runs.RunsOrdered | scripts/omni_quicklook_sep.py:127-133 | runs are in ascending order and disjoint, with end < next start |
| Runs.RunHolding | scripts/omni_quicklook_sep.py:127-133 | every position equal to `value` lies in some run |
| Runs.RunsCoverMatches | scripts/omni_quicklook_sep.py:127-133 | the runs cover all positions equal to `value` |
| Runs.LastRunStart | scripts/omni_quicklook_sep.py:127-133 | the last run starts at a match that is not preceded by one, and every later match continues a block |
| Runs.NoRunsIffNoMatch | scripts/omni_quicklook_sep.py:127-133 | the run list is empty exactly when no position equals `value` |
| Cutoffs.AccessCount | scripts/omni_quicklook_sep.py:76 | the count of directions reaching 14.99 Earth radii is at most the number of directions; it is zero exactly when none reach and full exactly when all do |
| Cutoffs.Fraction | scripts/omni_quicklook_sep.py:78 | a count divided by the number of angles lies in [0, 1], is 0 exactly for a zero count, and times the number of angles gives back the count |
| Cutoffs.Allow | scripts/omni_quicklook_sep.py:76-78 | allow[n] is the fraction of directions at energy n with access |
| Cutoffs.Nonzero | scripts/omni_quicklook_sep.py:86 | `np.nonzero` lists, in ascending order, exactly the indices with a nonzero fraction |
| Cutoffs.LowIndex | scripts/omni_quicklook_sep.py:86-88 | idx_low is the first index with some access; it fails exactly when all fractions are zero |
| Cutoffs.FullAccessMask | scripts/omni_quicklook_sep.py:87 | marks exactly the energies whose fraction exceeds 0.82 |
| Cutoffs.HighIndex | scripts/omni_quicklook_sep.py:93-96 | idx_high is a valid index |
| Cutoffs.HighIndexIsLastRunStart | scripts/omni_quicklook_sep.py:93-97 | idx_high is the start of the last block of full access, or the highest energy when there is none |
| Cutoffs.WeightedAllowCountsAccess | scripts/omni_quicklook_sep.py:76-78 | Σ allow·len(angles) equals the number of cells with access |
| Cutoffs.CellsAtMostTotal | scripts/omni_quicklook_sep.py:103 | the cells with access are at most energies × angles (Ntot) |
| Cutoffs.Total | scripts/omni_quicklook_sep.py:103 | Ntot is at least 1 |
| Cutoffs.AsWrittenMirrorsIntended | scripts/omni_quicklook_sep.py:102-106 | the as-written r_eff is as far above r_low as the intended one is below r_high |
| Cutoffs.AsWrittenCounterexample | scripts/omni_quicklook_sep.py:102-106 | a concrete map where the as-written and the intended r_eff differ (2.5 against 1.5) |
| Cutoffs.AsWrittenBetween | scripts/omni_quicklook_sep.py:102-106 | the as-written r_eff lies between r_low and r_high, but is r_high when every cell has access and r_low when none has |
| Cutoffs.EffectiveRigidityBetween | scripts/omni_quicklook_sep.py:102-106 | the intended r_eff lies between r_low and r_high; it is r_low when every cell has access and r_high when none has |
| Cutoffs.CutoffsOf | scripts/omni_quicklook_sep.py:86-112 | fails with no access exactly when every fraction is zero |
| Cutoffs.Cutoffs | scripts/omni_quicklook_sep.py:70-124 | fails exactly when no cell of the map has access; otherwise it also returns the access fractions |
| Cutoffs.NoAccessIffNoCells | scripts/omni_quicklook_sep.py:76-88 | all fractions are zero exactly when no cell has access |
| Cutoffs.CutoffsChoose | scripts/omni_quicklook_sep.py:86-112 | ec_low is energy/1000 at the first energy with access, and ec_high is at idx_high; the rigidities and ec_eff come from the conversions; r_eff is the as-written interpolation with Nforbid = sum(allow·len(angles)), lies between r_low and r_high, and is r_high when every cell has access |
| Cutoffs.FirstAccess | scripts/omni_quicklook_sep.py:86-88 | the first nonzero fraction is the first energy at which some direction has access |
| QuickLook.CalculateOmni | scripts/omni_quicklook_sep.py:22-35 | masked cells become 0 and all others keep their flux; with initialE, final_E becomes init_E, otherwise final_E is unchanged |
| QuickLook.MaskUnreached | scripts/omni_quicklook_sep.py:25-31 | every cell whose trajectory stays inside 14.99 Earth radii is zeroed, and every other cell keeps its value |
| QuickLook.MaskOutsideView | scripts/omni_quicklook_sep.py:32-35 | every cell at an angle below 90 degrees is zeroed, and every other cell keeps its value |
| PostProcessing.PostProcessor.constructor | scripts/ptm_postprocessing.py:50-57 | the directory is the given one or the working directory; defaults are pending, and the rest energy is 511 keV |
| PostProcessing.PostProcessor.SetSourceParameters | scripts/ptm_postprocessing.py:61-93 | the rest energy is multiplied by `mass` (so it stays 511 × the product of all masses so far); the three parameters are stored and the defaults flag is cleared |
| PostProcessing.PostProcessor.CalculateFlux | scripts/ptm_postprocessing.py:118-135 | defaults are applied only if no parameters were ever set, and they leave the rest energy unchanged; the flux formula is applied to every cell with the stored parameters |
| PostProcessing.PostProcessor.ProcessRun | scripts/ptm_postprocessing.py:204-229 | raises, with no state change, when `<filedir>/map_NNNN.dat` is absent, and exactly when that file cannot be parsed as a map; otherwise the result has the final positions of the freshly parsed map and the stored kappa, n_dens and e_char, the defaults have been applied if they were pending, and the rest energy is unchanged |
| PostProcessing.FluxGrid | scripts/ptm_postprocessing.py:121-133 | the flux has the map's shape, and each cell is the formula at that cell's final and initial energy |
| PostProcessing.UnitMassesKeepRestEnergy | scripts/ptm_postprocessing.py:61-86 | calls with the default mass 1.0 never change the rest energy |
| PostProcessing.PostOmni | scripts/ptm_postprocessing.py:162-168 | fails exactly when the bins of pav and of the flux differ and neither is a single bin, the `einsum` broadcasting rule; otherwise there is one value per energy row |
| PostProcessing.OneAngleBinBroadcasts | scripts/ptm_postprocessing.py:162-168 | a single pitch-angle bin is broadcast: each row gives that bin's weight times the sum of its bin averages (zero for a flux without bins) |
| PostProcessing.OneFluxBinBroadcasts | scripts/ptm_postprocessing.py:162-168 | a flux with a single bin is broadcast: each row gives that bin's average times the sum of the weights (zero without pitch-angle bins) |
| PostProcessing.PostOmniIsSymmetricIntegral | scripts/ptm_postprocessing.py:162-168 | on an energy × angle array it equals the ptm_tools integral in degrees with `symmetry` set |
| PostProcessing.SecondsToHhmmss | scripts/ptm_postprocessing.py:266-270 | 3600·hh + 60·mm + ss = tsec with 0 ≤ mm, ss < 60, and 0 ≤ hh < 24 for a time within one day |
| PostProcessing.HhmmssUnique | scripts/ptm_postprocessing.py:266-270 | this is the only split with minutes and seconds in [0, 60) |
| PostProcessing.Format04 | scripts/ptm_postprocessing.py:204 | `{:04}` gives digits reading back as the run id, padded to at least four characters |
| PostProcessing.DigitCount | scripts/ptm_postprocessing.py:204 | a number below 10^k has at most k digits |
| PostProcessing.Format04Shape | scripts/ptm_postprocessing.py:204 | run ids below 10000 give exactly four characters, and distinct run ids name distinct files |
| PostProcessing.Ones | scripts/ptm_postprocessing.py:350 | the NSC block is `nenergy` ones |
| PostProcessing.DataLineFor | scripts/ptm_postprocessing.py:367-372 | a data line carries omni/(4π) for each of the nenergy energies, the MLT, the NSC ones and the time split as seconds_to_hhmmss splits it (recomposing the time, minutes and seconds in [0, 60), hence unique by HhmmssUnique); it fails exactly when the record has fewer than nenergy values |
| PostProcessing.RunLine | scripts/ptm_postprocessing.py:369-370 | a missing `fluxdata[i]` raises for run i |
| PostProcessing.Block | scripts/ptm_postprocessing.py:368-373 | one time gives one line per MLT value |
| PostProcessing.RamFileOf | scripts/ptm_postprocessing.py:334-373 | fewer than two times fails, and a missing run 1 fails before any line is written |
| PostProcessing.BlockFailureStands | scripts/ptm_postprocessing.py:368-373 | a failure at an MLT value is the failure of that time's block |
| PostProcessing.LinesFailureStands | scripts/ptm_postprocessing.py:365-373 | a failure at a time is the failure of the whole file |
| PostProcessing.LinesCount | scripts/ptm_postprocessing.py:365-373 | a complete file has len(times) × len(mlt) data lines |
| PostProcessing.BlockLine | scripts/ptm_postprocessing.py:368-373 | line m of a block comes from run i0 + m + 1 at MLT m |
| PostProcessing.LineOrder | scripts/ptm_postprocessing.py:365-373 | line t·len(mlt) + m is the line of run t·len(mlt) + m + 1 at times[t] and mlt[m]: time-major, MLT-minor |
| PostProcessing.WriteRamFluxes | scripts/ptm_postprocessing.py:329-375 | the nested loops with the running index produce exactly the file `RamFileOf` describes, including the cadence (t₁ − t₀) // 60, the energies of run 1 and every failure |
| PostProcessing.WriteBlock | scripts/ptm_postprocessing.py:367-373 | the inner loop over MLT, counting the run index on from where the previous time left it, produces exactly the block `Block` describes, stopping at the first missing or short record |
| Gps.ListingComplete | scripts/gps_position.py:25 | the glob returns the full path of every entry of the satellite's directory that matches the pattern |
| Gps.ListingSound | scripts/gps_position.py:25 | every path the glob returns is the full path of a matching entry of the satellite's directory |
| Gps.LexTotal | scripts/gps_position.py:25 | Python's string order is total |
| Gps.Insert | scripts/gps_position.py:25 | inserting into an ordered list keeps it ordered and adds exactly the one element |
| Gps.Sort | scripts/gps_position.py:25 | `sorted` returns an ordered permutation of its input |
| Gps.SearchFrom | scripts/gps_position.py:26 | the regular-expression search finds the leftmost 6-digit group preceded by '_', and reports none only when there is no such group |
| Gps.WeekString | scripts/gps_position.py:26 | the week string is the leftmost 6-digit group after '_' in the name, as re.search returns; it fails exactly when there is none |
| Gps.WeekStrings | scripts/gps_position.py:26 | succeeds exactly when every file has a week string, and lists them in file order |
| Gps.DayNumberOrder | scripts/gps_position.py:23 | counting days from 2000-01-01 preserves calendar order in both directions, so comparing week starts compares dates |
| Gps.WeekDate | scripts/gps_position.py:18-23 | year 2000 + digits 0-1, month digits 2-3 and day digits 4-5; datetime rejects a date exactly when it is not a real calendar date |
| Gps.WeekDates | scripts/gps_position.py:27 | succeeds exactly when every week string is a valid date, and lists them in order |
| Gps.BisectRight | scripts/gps_position.py:29 | the binary search stays within [lo, hi] |
| Gps.BisectSplits | scripts/gps_position.py:29 | on an ascending list, everything before the bisect index is ≤ x and everything from it is > x |
| Gps.PickWeek | scripts/gps_position.py:29-31 | `allfiles[fidx-1]` fails only on an empty list, and otherwise names a valid position (−1 wraps) |
| Gps.PickWeekIsLatestStart | scripts/gps_position.py:29-31 | with ascending week dates, the chosen week is the latest starting no later than the target time |
| Gps.PickWeekWraps | scripts/gps_position.py:29-31 | a target before every week silently selects the last file |
| Gps.FindDataFile | scripts/gps_position.py:16-31 | the result is one of the sorted matching files, and no matching file means an index error |
| Gps.ChooseFile | scripts/gps_position.py:26-31 | the chosen file is one of the given files, and an empty list is an index error |
| Gps.ChooseFileChoosesWeek | scripts/gps_position.py:29-31 | a successful choice is the file at the week PickWeek chose, the latest week start not after the target when the starts ascend |
| Gps.NearestSample | scripts/gps_position.py:41-44 | fails exactly when the bisect index is past the last sample; otherwise it returns a valid sample, the one at index − 1 or at index |
| Gps.NearestIsClosest | scripts/gps_position.py:41-44 | on ascending times the chosen sample is as close to the target as any, a tie between the neighbours goes to the earlier one, and it fails exactly when no sample is later than the target |

## Left out

- File and operating-system I/O: `open`, `np.loadtxt`, `glob`, `os.path.isfile`,
  `os.getcwd` and the writing of the RAM file.
  - Files are maps from names to token lines.
  - A directory is a list of entry names.
  - The working directory is a parameter.
- The text and number formatting of the RAM file: header lines, field widths
  and the file name built from the date and cadence. The model keeps each
  line's values and the file's order.
- Floating point.
  - Reals are exact.
  - `np.linalg.norm(x) >= 14.99` is compared on squares.
  - π, `np.sin`, `deg2rad`, the proton rigidity and its inverse, and the kappa
    flux formula of `calculate_flux` are function parameters.
- The distribution formulas of `ptm_tools.py`, `tm03_moments`, plotting, and
  the command-line entry points, because they are floating-point physics or UI
  glue.
- The instrument angles of `instrFOV` (arccos of normalised vectors) enter
  `calculate_omni` as a grid.
- The base differential flux and the final integration of `calculate_omni`
  (`pp.set_source`, `pp.map_flux`, `pp.get_omni_flux`). These methods do not
  exist on `ptm_postprocessor`, so the flux is an input grid and the omni sum
  is not part of `QuickLook.CalculateOmni`.
- QuickLook.CalculateOmni: requires the flux grid not to be the same array as
  the instrument angles or the map's energy grids. No aliasing between them is
  modelled.
- MapFile.Scatter: requires the four grids to be distinct arrays, as the
  `np.zeros` calls make them.
- Cutoffs.Allow: requires at least one pitch angle whenever the map has
  energies. With none, numpy divides 0 by 0 into NaN instead of raising, and
  NaN is not modelled.
- Cutoffs.CutoffsOf: carries the same requirement, for the same reason.
- Cutoffs.Cutoffs: carries the same requirement, for the same reason.
- MapFile.Table: token conversion is a total function `num`, so the
  `ValueError` that `np.loadtxt` raises on a non-numeric token is not modelled.
- MapFile.HeaderPosition: the same total `num` stands for
  `np.array(sourcepos, dtype=float)`, whose failure on a non-numeric header
  token is not modelled.
- Trajectory.ParseTrajectoryFile: data rows stay token lists. The
  `np.array(parr, dtype=float)` conversion, and its failure on ragged or
  non-numeric rows, is not modelled.
- PostProcessing.PostProcessor.ProcessRun: the omnidirectional flux it
  computes and never stores, and the verbose printing, are not modelled. That
  sum cannot fail, since the flux has one column per pitch angle.
- PostProcessing.WriteRamFluxes: works on the records as given.
  `process_run` does not store `omni` or `energies` (those lines are commented
  out), so its results would fail at `write_ram_fluxes`. Times are whole
  seconds, and π is a positive parameter.
- PostProcessing.SecondsToHhmmss: takes whole seconds. The source also accepts
  floats and truncates the parts with `int`.
- Gps.FindDataFile:
  - only ASCII digits are digits; Python's `\d` and `int` also accept other
    Unicode digits;
  - the satellite name is a plain directory name, with no slash;
  - times are whole seconds since 2000-01-01.
- The rest of `getPosition`, because it is foreign: reading the data file with
  spacepy, `doy2date`, the GEO-to-GSM conversion and the formatted position
  string. Only the choice of sample index is modelled.

## Findings

| source | as written | input that shows it | evidently intended | confidence | as-written member | corrected member |
|---|---|---|---|---|---|---|
| scripts/omni_quicklook_sep.py:102-106 | `Nforbid = np.sum(allow*len(angles))` counts the cells *with* access, so r_eff moves toward r_high as access grows | allow = [0.5, 1.0], two angles, r_low = 1, r_high = 3: r_eff = 2.5 | Nforbid counts the forbidden cells, giving r_eff = 1.5, which equals r_low at full access and r_high at none | medium, not executed | Cutoffs.EffectiveRigidityAsWritten (with Cutoffs.AsWrittenCounterexample, Cutoffs.AsWrittenMirrorsIntended, Cutoffs.AsWrittenBetween) | Cutoffs.EffectiveRigidity (with Cutoffs.EffectiveRigidityBetween) |
