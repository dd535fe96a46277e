# Radial binning and detector masks, modelled in Dafny

This project models the analysis core of an X-ray scattering pipeline for a pixelated area
detector. Images are flat per-pixel arrays of intensities. Two artefacts are derived from them:

- **A radial profile** (`utils.py`, class `RadialAverager`). Each pixel carries a
  momentum-transfer value q. Construction splits the q range into `n_bins` equal bins and
  assigns every pixel a bin. It then builds a normalisation array: the mask weight of each bin
  plus 1e-100. A call sums the mask-weighted intensities per bin and divides by that
  normalisation. `bin_centers` and `pixel_counts` are derived values. `runNumToString`
  zero-pads run numbers to four digits.
- **A validity mask.**
  - `maskmaker.__call__` (`Mask/masking_py3.py`) first applies a range test combined with the
    old mask. It then zeroes the rejected pixels of the reference image *in place*. Finally it
    keeps only the pixels within `tolerance` standard deviations of the mean of the nonzero
    survivors.
  - `maskmaker_SF6.__call__` (`Mask/masking_SF6_py3.py`) writes a band test at selected
    indices into an all-ones mask and ANDs it with the old mask.
  - The two combiner scripts (`Mask/Mask_scratch/`) multiply masks saved by earlier runs. They
    report a pixel count or a valid fraction and save the product under a name built from the
    run numbers.

Modules:

- `Wrappers`: `Option` and `Result`.
- `Decimal`: Python's `str(int)` and `'%d'`.
- `Binning`: the exact-arithmetic specification of bin indices, bincount, the element-wise
  product `Combine`, normalisation and
  profile.
- `Utils`: the class `RadialAverager`, the bincount loop and the zero-padding loop.
- `MaskOps`: the range test, the laws of `Combine` on masks, and pixel counts.
- `Masking`: the class `MaskMaker`.
- `MaskingSF6`: the class `MaskMakerSF6`.
- `MaskCombiner`: the AND-reduce, the file names and both scripts.

Representation:

- All numbers are exact `real`s. The constant `Eps` is 1e-100.
- numpy arrays are `seq<real>`. `RadialAverager` arrays are `Frame`s: a shape plus the
  flattened pixels, so that the two shape checks of `__call__` can be stated.
- Arrays that the source updates in place are Dafny `array`s: the reference images of
  `MaskMaker`, and the result buffers of bincount, `bin_values /=`, `newmask[inds] =` and
  `newmask *=`.
- A raised exception becomes the `Failure` case of a `Result`.
- The file system of the scripts is a `map` from file name to mask.

Three consequences of the code, each proved:

- The field [0, 1, 2, 3] with 2 bins gets the floor indices [0, 0, 1, 2]
  (`Utils.SmallFieldOverflows`).
- The reference image [1, 2, 3, 100] with bounds (0, 50) and tolerance 1 gives the mask
  [0, 1, 0, 0] (`Masking.WorkedExample`).
- When no pixel survives the range test, no error is raised. numpy's NaN mean makes every
  comparison false, so the mask rejects every pixel (`Masking.NoSurvivorsRejectAll`).

## Model

| member | source | states |
|---|---|---|
| Binning.SeqMin | utils.py:39 | `q_values.min()`: an element of the field that lies below every pixel |
| Binning.SeqMax | utils.py:39 | `q_values.max()`: an element of the field that lies above every pixel |
| Binning.SpanWidth | utils.py:39-40 | the bin width `q_range / n_bins` of a non-constant field is positive |
| Binning.SpanWidthCoversRange | utils.py:39-40 | `n_bins` bins of that width exactly cover [qmin, qmax] |
| Binning.FloorBinBounds | utils.py:43-45 | the floor index of a pixel is at least 0; it is below n_bins unless q == qmax, where it is exactly n_bins |
| Binning.FloorAssignments | utils.py:43-45 | the source's floor indices: one per pixel, each in [0, n_bins], and equal to n_bins exactly at the pixels where q == qmax |
| Binning.TopPixelOverflows | utils.py:43-48 | under exact arithmetic some pixel (the one at qmax) gets the floor index n_bins |
| Binning.BinAssignmentsInRange | utils.py:43-48 | the clamped indices all lie in [0, n_bins) and equal the floor index wherever q < qmax; every pixel at qmax is in the last bin, n_bins - 1 |
| Binning.BinAssignmentsFit | utils.py:43-48 | the clamped indices satisfy the line-48 condition: all in [0, n_bins), with the last bin used |
| Binning.BinCountLength | utils.py:52 | bincount's output length is max index + 1 (0 for no pixels), so every index has a slot and the last slot is used |
| Binning.BinsPartitionWeight | utils.py:52 | summing the per-bin weight sums gives the total weight: each pixel lands in exactly one bin |
| Binning.WeightInBinNonNegative | utils.py:52 | a bin's weight sum is non-negative when the weights are |
| Binning.Normalization | utils.py:51-54 | `(bincount + eps)[:n_bins]` with Python slice semantics: at most bincount's length entries, exactly n_bins when 0 <= n_bins <= that length, and all positive for non-negative mask weights |
| Binning.NormalizationShape | utils.py:51-54 | the normalisation has n_bins entries and entry b is eps plus the mask weight of bin b |
| Binning.NormalizationPositive | utils.py:51-54 | with non-negative mask weights every normalisation entry is positive, so the call never divides by zero |
| Binning.NormalizationConservesMask | utils.py:51-54 | when the indices fit, the entries minus eps sum to the total mask weight |
| Binning.Profile | utils.py:79-82 | one value per normalisation entry; each value times its entry is the bin's weighted sum, so the division is exact |
| Binning.ProfileConservesIntensity | utils.py:79-82 | multiplying each bin's value back by its normalisation and summing gives the total mask-weighted intensity |
| Binning.ProfileOfConstantImage | utils.py:79-82 | a constant image v yields v·c/(c + eps) in a bin of mask weight c |
| Binning.ProfileOfZeroMask | utils.py:79-82 | an all-zero mask yields an all-zero profile |
| Utils.ConstructAsWritten | utils.py:34-54 | the construction as written: an empty field, a constant field and n_bins <= 0 fail with their errors; a success could only hold the floor indices of a binnable field with matching weights |
| Utils.AsWrittenConstructionAlwaysFails | utils.py:39-48 | the construction written with the floor indices fails for every input; on a binnable field it fails at the line-48 assertion |
| Utils.SmallFieldOverflows | utils.py:39-48 | q = [0, 1, 2, 3] with 2 bins gets the indices [0, 0, 1, 2], and construction aborts |
| Utils.Construct | utils.py:34-54 | the corrected construction's error cases in the source's order: empty field, constant field, n_bins <= 0, weights of the wrong length. It succeeds exactly otherwise. The indices are the clamped floor indices, one per pixel in [0, n_bins), with the last bin used, so they pass the line-48 check |
| Utils.BinCount | utils.py:52 | the accumulating loop fills a fresh array of bincount's length, with each slot computed as `WeightInBin` |
| Utils.TruncatedCountsAreNormalization | utils.py:51-54 | `(bincount + eps)[:n_bins]` built from the loop's counts is the normalisation |
| Utils.NormalizationOf | utils.py:51-54 | the two-step normalisation assignment yields the normalisation: n_bins positive entries |
| Utils.RadialAverager.constructor | utils.py:22-54 | keeps q, mask and n_bins and establishes the invariant tying q_range, bin_width, the indices and the normalisation to their definitions |
| Utils.RadialAverager.Create | utils.py:22-54 | `__init__` with its exceptions: fails exactly as the corrected construction does, otherwise yields a fresh averager in the invariant |
| Utils.RadialAverager.Call | utils.py:57-87 | a q-shape mismatch raises the first error and a mask-shape mismatch the second. Otherwise the call returns the n_bins-entry profile: bin b is the mask-weighted intensity of bin b over its normalisation |
| Utils.RepeatedCallsAgree | utils.py:57-87 | two calls on one averager with one image return equal results: the call changes no state |
| Utils.Centers | utils.py:90-92 | n_bins centres; the first is qmin + w/2, the last is qmax - w/2; successive centres are exactly w apart and strictly increasing |
| Utils.RadialAverager.BinCenters | utils.py:90-92 | `bin_centers` of a constructed averager: n_bins centres that step by its bin width |
| Utils.RadialAverager.PixelCounts | utils.py:94-96 | `pixel_counts`: n_bins positive entries, each eps plus its bin's mask weight, summing (minus eps) to the total mask weight |
| Utils.RunNumToString | utils.py:230-246 | the loop returns `str(num)` left-padded with '0' to four characters |
| Utils.RunNumberStringReadsBack | utils.py:243-246 | for n >= 0 the string has max(4, len(str(n))) digits, ends in str(n) and reads back as n |
| Utils.RunNumberStringInjective | utils.py:243-246 | distinct run numbers >= 0 give distinct strings |
| Decimal.NatToStringCanonical | utils.py:243 | `str(n)` for n >= 0 is a non-empty digit string without a leading zero (unless n is 0) whose value is n |
| Decimal.IntToStringShape | utils.py:243 | `str(n)` starts with '-' exactly for negative n, and is otherwise the digits of abs(n) |
| Decimal.IntToStringInjective | Mask/Mask_scratch/Mask_Combiner_Lisa.py:8-10 | distinct integers print differently under `%d` |
| Decimal.IntToStringHasNoUnderscore | Mask/Mask_scratch/Mask_Combiner_Lisa.py:18 | a printed integer contains no '_', the separator of the output names |
| Decimal.LeadingZerosKeepValue | utils.py:244-245 | prepending '0's keeps a digit string's value |
| MaskOps.RangeTest | Mask/masking_py3.py:47 | the product of the two comparisons `(x < hi) * (x > lo)`, each 1 or 0, is 1 exactly when lo < x < hi and 0 exactly otherwise |
| MaskOps.CombineCommutes | Mask/Mask_scratch/Mask_Combiner_Lisa.py:14 | swapping the two masks gives the same product |
| MaskOps.CombineAssociates | Mask/Mask_scratch/Mask_Combiner.py:11 | the grouping of a chain of mask products does not matter |
| MaskOps.CombineWithOnes | Mask/masking_SF6_py3.py:42-46 | multiplying into the all-ones mask leaves a mask unchanged |
| MaskOps.CombineIsAnd | Mask/Mask_scratch/Mask_Combiner_Lisa.py:14 | on 0/1 masks the product is 0/1 and a pixel is 1 exactly when both masks are 1 |
| MaskOps.CombineBelowEach | Mask/Mask_scratch/Mask_Combiner_Lisa.py:14 | the product of 0/1 masks lies pointwise below each input |
| MaskOps.SumMonotone | Mask/Mask_scratch/Mask_Combiner_Lisa.py:15 | a pointwise-smaller mask has a smaller `np.sum` |
| MaskOps.CombineCountBelowEach | Mask/Mask_scratch/Mask_Combiner_Lisa.py:14-15 | the printed count of a product is at most the count of each 0/1 input |
| MaskOps.BinarySumBounds | Mask/Mask_scratch/Mask_Combiner.py:12 | a 0/1 mask's count lies between 0 and its number of pixels |
| Masking.NonZero | Mask/masking_py3.py:50-51 | `image[image != 0]`: exactly the nonzero values of the image, no more entries than it has |
| Masking.NonZeroDistributes | Mask/masking_py3.py:50-51 | filtering the nonzero values of a concatenation concatenates the filtered parts |
| Masking.SurvivorStats | Mask/masking_py3.py:50-51 | mean and variance exist exactly when some nonzero value survives; the variance is non-negative |
| Masking.InBand | Mask/masking_py3.py:52-54 | the refinement test on one pixel is 0 or 1 |
| Masking.BandMatchesDeviation | Mask/masking_py3.py:51-54 | the squared comparison accepts x exactly when `mean - tol·σ < x < mean + tol·σ`, for σ the non-negative root of the variance |
| Masking.MultiplyInPlace | Mask/masking_py3.py:49 | `a *= b` leaves a holding the element-wise product of its old contents and b |
| Masking.MaskMaker.constructor | Mask/masking_py3.py:8-35 | the two reference images are distinct fresh arrays holding the given contents, beside the old mask |
| Masking.MaskMaker.Call | Mask/masking_py3.py:43-56 | 'dark' and 'xray' select their image and any other name fails. The call returns the final mask of the selected image and leaves that image zeroed outside the base mask, in place. The other image is unchanged |
| Masking.BaseMask | Mask/masking_py3.py:47 | pixel i of the base mask is the old mask's value when lowerbound < image[i] < upperbound and 0 otherwise |
| Masking.Masked | Mask/masking_py3.py:44-49 | pixel i of the zeroed image is image[i]·oldmask[i] inside the bounds and 0 outside |
| Masking.FinalMask | Mask/masking_py3.py:47-54 | every pixel of the final mask is 0 or its base-mask value, and with no nonzero survivor every pixel is 0 |
| Masking.RefineInPlace | Mask/masking_py3.py:47-55 | the body of `__call__` on the chosen array: leaves it holding the zeroed image and returns the final mask of its old contents |
| Masking.BaseMaskAccepts | Mask/masking_py3.py:47 | a pixel is in the base mask exactly when lowerbound < image < upperbound and the old mask keeps it |
| Masking.ZeroingKeepsSurvivors | Mask/masking_py3.py:44-49 | with a 0/1 old mask the zeroed image keeps every base pixel's value and is 0 at every other pixel |
| Masking.FinalMaskAccepts | Mask/masking_py3.py:52-54 | a pixel is in the final mask exactly when it is in the base mask, survivors exist, tol > 0 and its squared deviation from the mean is below tol²·variance |
| Masking.RefinementOnlyRemoves | Mask/masking_py3.py:47-54 | 0 <= final <= base <= oldmask pointwise for a non-negative old mask; a 0/1 old mask gives 0/1 base and final masks |
| Masking.ZerosDoNotCount | Mask/masking_py3.py:50-51 | inserting a 0 anywhere in the zeroed image leaves the mean and variance unchanged |
| Masking.NoSurvivorsRejectAll | Mask/masking_py3.py:50-54 | with no nonzero survivor the final mask is 0 everywhere |
| Masking.RerunAdmitsZeroedPixels | Mask/masking_py3.py:47-49 | on a second call a pixel that the first call rejected, but the old mask keeps, is in the base mask exactly when lowerbound < 0 < upperbound |
| Masking.WorkedExampleStats | Mask/masking_py3.py:50-51 | the zeroed reference [1, 2, 3, 0] has mean 2 and variance 2/3 |
| Masking.WorkedExample | Mask/masking_py3.py:47-54 | reference [1, 2, 3, 100] with bounds (0, 50) and tolerance 1 gives [0, 1, 0, 0] |
| Masking.RepeatedCallStats | Mask/masking_py3.py:50-51 | the zeroed reference [0, 1, -1] has mean 0 and variance 1 |
| Masking.RepeatedCallDiffers | Mask/masking_py3.py:47-54 | not idempotent: [100, 1, -1] with bounds (-50, 50) and tolerance 10 gives [0, 1, 1], and the repeat on the zeroed image gives [1, 1, 1] |
| MaskingSF6.Wrap | Mask/masking_SF6_py3.py:44-45 | a numpy index in [-n, n) names a pixel in [0, n) |
| MaskingSF6.FirstOutOfBounds | Mask/masking_SF6_py3.py:44 | the first index outside [-n, n), the one numpy's IndexError reports |
| MaskingSF6.MaskMakerSF6.constructor | Mask/masking_SF6_py3.py:8-22 | the reference images are fresh arrays holding the given contents, beside the old mask |
| MaskingSF6.MaskMakerSF6.Call | Mask/masking_SF6_py3.py:38-48 | 'dark' reads the dark image, 'xray' and 'SF6' read the x-ray image, and any other name fails. An out-of-range index fails before any write. Otherwise the loop over `inds` yields the band mask, and no field or image changes |
| MaskingSF6.BandMask | Mask/masking_SF6_py3.py:42-46 | one value per pixel, each 0 or the old mask's value |
| MaskingSF6.SelectBand | Mask/masking_SF6_py3.py:44-46 | succeeds exactly when every index lies in [-n, n), with one value per pixel; on failure it reports an out-of-range entry of `inds` |
| MaskingSF6.BandMaskPixels | Mask/masking_SF6_py3.py:42-46 | outside `inds` the result is the old mask; inside it is `(lo < image < hi)·oldmask` |
| MaskingSF6.BandMaskBelowOldmask | Mask/masking_SF6_py3.py:42-46 | the result lies between 0 and a non-negative old mask |
| MaskingSF6.NoIndicesKeepOldmask | Mask/masking_SF6_py3.py:42-46 | with `inds` empty the call returns the old mask |
| MaskingSF6.BandMaskBinary | Mask/masking_SF6_py3.py:42-46 | a 0/1 old mask gives a 0/1 result |
| MaskingSF6.BandMaskDependsOnSelection | Mask/masking_SF6_py3.py:44-45 | only the set of selected pixels matters: order, repeats and negative spellings of `inds` do not |
| MaskingSF6.OutOfRangeIndexFails | Mask/masking_SF6_py3.py:44 | any entry of `inds` outside [-n, n) makes the call fail. The error reports the first out-of-range entry, which comes no later than that one and is that one when every entry before it is in range |
| MaskCombiner.AndReduce | Mask/Mask_scratch/Mask_Combiner.py:11 | the product has n pixels, and a pixel that is 0 in any mask is 0 in the product |
| MaskCombiner.AndReduceIsPixelProduct | Mask/Mask_scratch/Mask_Combiner.py:11 | pixel i of the reduce is the product of pixel i over all masks |
| MaskCombiner.PixelProductPermutation | Mask/Mask_scratch/Mask_Combiner.py:11 | that per-pixel product is the same for any reordering of the masks |
| MaskCombiner.AndReduceIsAnd | Mask/Mask_scratch/Mask_Combiner.py:11 | for 0/1 masks the product is 0/1 and a pixel is 1 exactly when every mask is 1 |
| MaskCombiner.AndReduceBelowEach | Mask/Mask_scratch/Mask_Combiner.py:11 | the product lies pointwise below every 0/1 input |
| MaskCombiner.AndReduceOrderIndependent | Mask/Mask_scratch/Mask_Combiner.py:11 | reordering any masks of one size (not only 0/1 masks) gives the same product |
| MaskCombiner.AndReduceFour | Mask/Mask_scratch/Mask_Combiner.py:11 | the reduce of four masks is `a * b * c * d` evaluated left to right |
| MaskCombiner.RunMaskFile | Mask/Mask_scratch/Mask_Combiner_Lisa.py:8-10 | `'run%d_mask_xray.npy' % run` starts with "run" and ends with "_mask_xray.npy"; for run >= 0 the middle is the digits of run |
| MaskCombiner.EdgeMaskFile | Mask/Mask_scratch/Mask_Combiner_Lisa.py:18 | the two-run output name is never the name of a run mask, so the save cannot overwrite an input |
| MaskCombiner.CombinedMaskFile | Mask/Mask_scratch/Mask_Combiner.py:14 | the four-mask output name is never a run mask, the line mask or the shadow mask |
| MaskCombiner.RunMaskFilesDistinct | Mask/Mask_scratch/Mask_Combiner_Lisa.py:8-10 | `'run%d_mask_xray.npy'` names distinct runs' mask files distinctly |
| MaskCombiner.SplitAtUnderscore | Mask/Mask_scratch/Mask_Combiner_Lisa.py:18 | two underscore-free words joined by '_' split back uniquely |
| MaskCombiner.StripAffixes | Mask/Mask_scratch/Mask_Combiner_Lisa.py:18 | a name with a fixed prefix and suffix determines its middle |
| MaskCombiner.RunPairDistinct | Mask/Mask_scratch/Mask_Combiner_Lisa.py:18 | `'%d_%d' % (dark, blank)` determines both runs in order |
| MaskCombiner.EdgeMaskFilesDistinct | Mask/Mask_scratch/Mask_Combiner_Lisa.py:18 | the output name `Mask_Jungfrau_<dark>_<blank>_T_Edge.npy` determines both runs, dark first |
| MaskCombiner.CombinedMaskFilesDistinct | Mask/Mask_scratch/Mask_Combiner.py:14 | the output name `Mask_Jungfrau_<dark>_<blank>.npy` determines both runs, dark first |
| MaskCombiner.PrintedRuns | Mask/Mask_scratch/Mask_Combiner_Lisa.py:3-5 | the script's run numbers print as 123, 125, 418 and 429 |
| MaskCombiner.LisaScript | Mask/Mask_scratch/Mask_Combiner_Lisa.py:3-18 | fails only with a missing file or a shape mismatch; on success both run masks exist, the product has their length and the printed value is its sum |
| MaskCombiner.LisaScriptResult | Mask/Mask_scratch/Mask_Combiner_Lisa.py:3-18 | succeeds exactly when run123 and run125 masks exist with one size. It saves their product, in either order, as Mask_Jungfrau_123_125_T_Edge.npy and prints its sum. For 0/1 masks that is a pixel-wise AND whose count is at most either input's |
| MaskCombiner.CombineFour | Mask/Mask_scratch/Mask_Combiner.py:6-12 | fails only with a missing file or a shape mismatch; on success the product has the dark mask's length and the printed fraction times 8·512·1024 is its sum |
| MaskCombiner.RunCombiner | Mask/Mask_scratch/Mask_Combiner.py:6-14 | the script for given global names: a load or shape failure comes first, then NameError for a missing dark-run name; it succeeds exactly when both names are bound, and saves the product under the name built from their values |
| MaskCombiner.CombinerScriptAsWritten | Mask/Mask_scratch/Mask_Combiner.py:3-14 | the script as written never succeeds |
| MaskCombiner.CombinerAsWrittenNeverSaves | Mask/Mask_scratch/Mask_Combiner.py:3-14 | as written the script never saves: once the masks load, the save line raises NameError for `dark_run_1` |
| MaskCombiner.FractionInUnitInterval | Mask/Mask_scratch/Mask_Combiner.py:12 | a 0/1 mask over all 8·512·1024 pixels has a valid fraction in [0, 1] |
| MaskCombiner.CombinerScript | Mask/Mask_scratch/Mask_Combiner.py:3-14 | the corrected script succeeds exactly when the four masks load with one size, and saves under `CombinedMaskFile(418, 429)` |
| MaskCombiner.CombinerScriptResult | Mask/Mask_scratch/Mask_Combiner.py:3-14 | the corrected script succeeds exactly when the four masks exist with one size. It saves their product as Mask_Jungfrau_418_429.npy and prints its sum over 8·512·1024 |

## Left out

- File and detector access are not modelled:
  - h5py reads, psana `DataSource`/`Detector`, and the `exec`-bound variables of both maskmaker
    constructors;
  - the detector-coordinate and q computations (`sqrt`, `arctan2`, `sin`, `np.arange` q bins);
  - `np.load`, `np.save`, `print` and matplotlib.
  
  The mask makers' constructors take the two reference images as given sequences. The call's
  `name` argument (only passed to `np.save`) is dropped. The scripts read a map of files and
  report the name they would save under.
- `plot_jungfrau`, `get_tree`, `is_leaf`, `get_leaves` and `combineRuns` in utils.py are I/O
  helpers and not part of this model. Mask/statistics_nouv_py3.py, an event loop with MPI
  reduction, is not part of this model either.
- Floating point is not modelled: rounding, the int32 cast, NaN and infinities. With exact reals
  the line-48 assertion fails for every field, so the averager uses the corrected construction;
  see Findings.
- `Masking.InBand`: does not compute σ = `np.std` (a square root). It compares
  (x − mean)² < tol²·variance instead. `Masking.BandMatchesDeviation` proves this equals the
  source's two-sided test for the non-negative root.
- `Masking.SurvivorStats`: when there is no survivor, numpy's NaN statistics are modelled as
  `None`, which every comparison treats as false.
- `Utils.RadialAverager.constructor`: the mask weights must be non-negative, which is what the
  docstring's 0/1 mask promises (utils.py:28-29). With negative weights a normalisation entry
  could be 0 and the division would give numpy's inf/NaN, which is not modelled.
- `Utils.Construct`: a constant field is reported as `DegenerateRange`. In numpy it is 0/0 NaN
  cast to int32 and rejected by bincount.
- `Utils.RadialAverager.Create`: takes n_bins explicitly. The source's default of 101
  (utils.py:22) is not modelled.
- `MaskingSF6.MaskMakerSF6.Call`: `inds` is a flat integer index array. Boolean masks, tuples of
  per-axis arrays and broadcasting are not modelled.
- An unbound `image` (UnboundLocalError) is the `UnboundImage` failure. Mismatched array shapes
  in the scripts are one `ShapeMismatch` failure; numpy broadcasting of unequal but compatible
  shapes is not modelled.
- The printed values are returned as numbers, not formatted text.

## Findings

| source | as written | input that shows it | evidently intended | confidence | as-written member | corrected member |
|---|---|---|---|---|---|---|
| utils.py:43-48 | `floor((q - qmin) / (q_range / n_bins))` gives the pixel at qmax the index n_bins, so `n_bins >= max + 1` fails | q = [0, 1, 2, 3], n_bins = 2: indices [0, 0, 1, 2] (under exact arithmetic every non-constant field fails) | the pixel at qmax belongs to the last bin, n_bins - 1 | not executed | Utils.AsWrittenConstructionAlwaysFails | Utils.Construct |
| Mask/Mask_scratch/Mask_Combiner.py:14 | the save line formats `dark_run_1` and `blank_run_1`, which the script never defines (it defines `dark_run` and `blank_run`) | any run with the four masks present: NameError on `dark_run_1`, nothing saved | save as `Mask_Jungfrau_418_429.npy` | not executed | MaskCombiner.CombinerAsWrittenNeverSaves | MaskCombiner.CombinerScriptResult |
