# Hyperspectral mass fitting — a Dafny model

This project models the numerical core of a toolkit for spatially resolved
emission spectra. A dataset is a matrix. Its first column is the wavelength
axis and every other column is the spectrum of one spatial pixel. The model
covers:

- **Per-pixel metrics** (`calc_utils.py`): the integrated intensity over a
  wavelength window, the intensity-weighted mean wavelength, and the full
  width at half maximum. It also covers the reshaping of a pixel vector into
  a square map, and the wavelength-to-energy transform with its Jacobian
  correction.
- **Peak fitting** (`fit_utils.py`): the single and double Gaussian shapes.
  It covers how `fit_model` chooses the model, guesses the starting
  parameters, applies user overrides and bounds, and masks the fit window.
  It also covers how `extract_fit_results` turns a fit into a row.
- **The two mass-fit scripts** (`main_fit_all.py`, `main_fit2.py`): the
  per-pixel loop, where a failed fit becomes a row of NaN. Then the results
  table, built like a pandas DataFrame from the rows plus three metric
  columns. Then the moments loop, which records the NaN-ignoring mean and
  standard deviation of each column whose map could be exported.

Modules:

| file | module | contents |
|---|---|---|
| `numeric.dfy` | `Numeric` | `Option`, and `Float`: a double as numpy sees it (a finite real, NaN or a signed infinity). Also division and addition on it. |
| `arrays.dfy` | `Arrays` | numpy helpers on sequences: sum, max, min, argmax, boolean indexing, `np.where` |
| `dicts.dfy` | `Dicts` | Python dicts: keys in insertion order plus a map |
| `calc_utils.dfy` | `CalcUtils` | the metrics, `to_square`, and the energy transform |
| `fit_utils.dfy` | `FitUtils` | the peak shapes; the lmfit `Parameters` object as a class updated in place; `fit_model` and `extract_fit_results` as methods |
| `frames.dfy` | `Frames` | a DataFrame built from a list of dicts; column assignment; `np.nanmean` and `np.nanstd` |
| `batch.dfy` | `Batch` | the fit loop, table assembly and moments loop that both scripts share, and the whole script run |
| `main_fit_all.dfy` | `MainFitAll` | the 'asymmetric' script: its configuration and what it implies |
| `main_fit2.dfy` | `MainFit2` | the 'single' script: its configuration and what it implies |

Some parts are passed in as function parameters because their code is not
modelled:

- `fit: FitRequest -> Option<ModelResult>` is lmfit's minimiser. `None`
  stands for the exception that the script loops catch.
- `exportMap` is `plot_utils.export_square_map`. `false` stands for an
  exception.
- `exp` is used by the Gaussians.
- `sqrt` is used by `np.nanstd`.

## Model

| member | source | states |
|---|---|---|
| CalcUtils.IntegratedIntensity | calc_utils.py:12-16 | There is one total per pixel. Each is the sum of that pixel's samples whose wavelength lies in the closed window, as an independent sample-by-sample walk adds them. |
| CalcUtils.SumSelectIsWindowedTotal | calc_utils.py:14-15 | Summing the mask-selected intensities equals walking the samples and adding those whose wavelength is in the window. |
| CalcUtils.IntegratedIntensityEmptyWindow | calc_utils.py:14-15 | A window that holds no sample gives 0 for every pixel. |
| CalcUtils.IntegratedIntensityFullWindow | calc_utils.py:14-15 | A window that holds every sample gives each pixel's full spectrum sum. |
| CalcUtils.PixelWeightedMean | calc_utils.py:31 | One pixel's weighted mean is finite exactly when its total intensity is not 0. It is then the value whose product with the total is the weighted sum. 0/0 gives NaN. |
| CalcUtils.WeightedMean | calc_utils.py:26-32 | There is one value per pixel. Each is the windowed weighted sum divided by the windowed total, with numpy's division by zero. |
| CalcUtils.WeightedMeanEmptyWindow | calc_utils.py:28-31 | An empty window gives 0/0, which is NaN, for every pixel. |
| CalcUtils.WeightedMeanWithinWindow | calc_utils.py:26-31 | A pixel with non-negative intensities and a positive total gets a finite mean. That mean lies between the smallest and largest windowed wavelength, and so inside the window. |
| CalcUtils.PixelWeightedMeanBounds | calc_utils.py:31 | For non-negative weights with a positive sum, the weighted mean lies between the minimum and maximum wavelength. |
| CalcUtils.Fwhm | calc_utils.py:42-57 | The loop over pixels returns one width per pixel. It fails exactly when there are pixels and the window is empty (`max` of an empty array raises). |
| CalcUtils.PixelFwhm | calc_utils.py:49-55 | One pixel's width is 0, or the wavelength difference between two samples i ≤ k that both reach half the maximum. |
| CalcUtils.FwhmSpan | calc_utils.py:49-53 | When the maximum is non-negative, the width is wl[last] − wl[first]. Here first and last are the outermost samples at or above half the maximum, and every sample outside them is below it. |
| CalcUtils.FwhmFallbackIffNegativeMax | calc_utils.py:50-55 | No sample reaches half the maximum if and only if the maximum is negative. In that case the width is 0. |
| CalcUtils.FwhmNonNegative | calc_utils.py:51-55 | On an ascending wavelength axis the width is never negative. |
| CalcUtils.FwhmFlatSpectrum | calc_utils.py:49-53 | A flat non-negative spectrum spans the whole window. |
| CalcUtils.ISqrt | calc_utils.py:67 | The integer square root s satisfies s² ≤ n < (s+1)². |
| CalcUtils.ToSquare | calc_utils.py:66-70 | The reshape succeeds exactly when the side squared equals the length. The result then has side rows of side entries. |
| CalcUtils.ToSquareIffPerfectSquare | calc_utils.py:66-69 | `to_square` succeeds if and only if the length is a perfect square. |
| CalcUtils.ToSquareEntry | calc_utils.py:70 | Entry (i, j) of the square is element i·side + j of the vector (row-major order). |
| CalcUtils.ToSquareExamples | calc_utils.py:66-70 | Length 25 gives 5×5, length 24 fails, and length 0 gives an empty square. |
| CalcUtils.InsertByX | calc_utils.py:102 | Inserting a sample into a sorted sequence keeps it sorted and adds exactly that sample. |
| CalcUtils.SortByX | calc_utils.py:102-103 | The sort is a sorted permutation of its input. |
| CalcUtils.ConvertWavelengthToEnergy | calc_utils.py:97-103 | The result is undefined exactly when hc is 0 or some wavelength is 0. Otherwise it is the samples (hc/λ, I·λ²/hc) sorted by energy. |
| CalcUtils.EnergySortedPermutation | calc_utils.py:97-103 | The energies come out ascending, each paired with its own scaled intensity, and nothing is lost or added. |
| CalcUtils.EnergyOrderReversed | calc_utils.py:97-103 | For hc > 0 and positive, strictly ascending wavelengths, sorting by energy exactly reverses the sample order. |
| CalcUtils.EnergiesAscending | calc_utils.py:97-103 | For hc > 0 and positive, strictly ascending wavelengths, the energies are positive and strictly ascending. |
| CalcUtils.TransformTwice | calc_utils.py:97-100 | For hc > 0 and λ > 0, applying the transform twice gives back the original sample: hc/(hc/λ) = λ, and the Jacobians cancel. |
| CalcUtils.EnergyRoundTrip | calc_utils.py:97-103 | For hc > 0 and positive, strictly ascending wavelengths, feeding the energy spectrum back through the transform gives back the original wavelength spectrum. |
| FitUtils.GaussianAt | fit_utils.py:5-9 | The value is never infinite. It is NaN exactly when sigma = 0 at the center (0/0). It equals the amplitude at the center when exp(0) = 1. |
| FitUtils.Gaussian | fit_utils.py:5-9 | The shape is evaluated elementwise over x. |
| FitUtils.GaussianSymmetric | fit_utils.py:9 | The Gaussian is symmetric about its center. |
| FitUtils.GaussianBounded | fit_utils.py:9 | For an exp in (0, 1] on non-positive arguments and a non-negative amplitude, the value lies in [0, amplitude]. |
| FitUtils.DoubleGaussian | fit_utils.py:12-19 | There is one value per sample, never infinite. A value is NaN exactly at the center of a component whose sigma is 0. |
| FitUtils.DoubleGaussianPointwise | fit_utils.py:12-19 | Each point is the sum of the two components. |
| FitUtils.DoubleGaussianSwap | fit_utils.py:18-19 | Swapping the two components leaves the curve unchanged. |
| FitUtils.DoubleGaussianZeroSecond | fit_utils.py:18-19 | A second component of amplitude 0 reduces the curve to the first Gaussian. |
| FitUtils.KindOf | fit_utils.py:32-35 | Only the exact string 'single' selects the single Gaussian. Every other string selects the double. |
| FitUtils.DefaultParams | fit_utils.py:34-40 | The guessed parameters are exactly the model's parameter names, in order. |
| FitUtils.DefaultParamsUnbounded | fit_utils.py:34-40 | The guesses carry no bounds. |
| FitUtils.SingleDefaults | fit_utils.py:34 | The single guess is amplitude = max y, center = x at the first argmax, and sigma = range/10. |
| FitUtils.DoubleDefaultsFromSingle | fit_utils.py:37-40 | The two double components start identical. Each has half the single amplitude, the same center and half the single width. |
| FitUtils.OverriddenValues | fit_utils.py:41-44 | After the first n overrides, a parameter holds the last of them that names it. Its bound is unchanged. |
| FitUtils.OverridesSpec | fit_utils.py:41-44 | Overrides keep the parameter names. They set a value exactly when the name is both configured and a parameter, ignore unknown names, and do nothing for an empty or missing dict. |
| FitUtils.LowerBoundedValues | fit_utils.py:46-47 | After n steps, exactly the first n parameters have lower bound 0. |
| FitUtils.LowerAllAtZeroSpec | fit_utils.py:46-47 | Every parameter keeps its value and gets lower bound 0. |
| FitUtils.Parameters.SetValue | fit_utils.py:44 | Only that parameter's value changes in the table. |
| FitUtils.Parameters.SetMin | fit_utils.py:47 | Only that parameter's lower bound changes in the table. |
| FitUtils.OverrideValues | fit_utils.py:41-44 | The loop over the configured dict leaves the parameter table equal to the override specification. |
| FitUtils.BoundBelowAtZero | fit_utils.py:46-47 | The loop over all parameters sets each lower bound to 0. |
| FitUtils.PrepareParams | fit_utils.py:32-47 | The table handed to the fit is the defaults, overridden, then bounded below at 0. |
| FitUtils.BuildMask | fit_utils.py:49-53 | The mask is built in place. It keeps exactly the samples within the bounds that are given (a missing bound does not restrict). |
| FitUtils.FitWindowExact | fit_utils.py:49-55 | A sample is kept if and only if it is inside the window. x and y are filtered by the same indices, in order. |
| FitUtils.FitWindowUnbounded | fit_utils.py:49-55 | With no bounds, every sample is fitted. |
| FitUtils.RequestParams | fit_utils.py:32-56 | The fit receives the model's parameters. Each has lower bound 0, and its value is the configured one if that name is configured, else the default guess. |
| FitUtils.RequestWindow | fit_utils.py:49-56 | The fit receives exactly the windowed samples. |
| FitUtils.DefaultsIgnoreWindow | fit_utils.py:34-56 | The starting guesses come from the whole spectrum, not the window. In this example the guessed center lies outside the fit window. |
| FitUtils.FitSpec | fit_utils.py:22-56 | Fitting fails when y is empty or x and y differ in length. Otherwise the result is exactly the fit's answer to the request built from the prepared parameters and the windowed data. |
| FitUtils.FitModel | fit_utils.py:22-56 | The method builds the model and parameters, masks the data and calls the fit. It returns what the fit returns for that request. |
| FitUtils.AsFloats | fit_utils.py:78 | The parameter values become finite floats under the same names. |
| FitUtils.ExtractSpec | fit_utils.py:76-80 | The row holds the parameter names in order, then chi_square, which is added last unless a parameter already has that name. chi_square is the fit's chi-square, and every other entry is that parameter's value. |
| FitUtils.ExtractFitResults | fit_utils.py:72-80 | The loop over the fitted parameters builds that row. |
| Frames.AddNew | main_fit_all.py:119 | New column names are appended after the existing ones, without duplicates. |
| Frames.ColumnsOf | main_fit_all.py:119 | The columns are distinct, and the first row's keys come first, in their order. |
| Frames.ColumnsOfExactly | main_fit_all.py:119 | A name is a column of the table if and only if some row has that key. |
| Frames.ColumnsOfUniform | main_fit_all.py:119 | When every row has the same keys, the columns are those keys in that order. |
| Frames.FromRecords | main_fit_all.py:119 | The table has one row per record, columns in order of first appearance, and each column's cells from the records. A missing key gives NaN. |
| Frames.SetColumn | main_fit_all.py:120-122 | Assigning a column replaces it in place, or appends it as the last column. |
| Frames.SumFloats | main_fit_all.py:150 | A sum of doubles is finite exactly when every term is finite. |
| Frames.NanMean | main_fit_all.py:150 | With no non-NaN value, the mean is NaN. It is finite exactly when the non-NaN values are all finite, and then it is their arithmetic mean and lies between their minimum and maximum. |
| Frames.NanStd | main_fit_all.py:151 | The std is finite exactly when there is a non-NaN value and all of them are finite. It is then the square root of their population variance, which is non-negative. |
| Frames.NanMomentsIgnoreNaN | main_fit_all.py:150-151 | A NaN anywhere among the values changes neither moment. |
| Frames.NanMomentsFinite | main_fit_all.py:150-151 | For finite non-NaN values, the mean lies between their minimum and maximum. The std is the square root of their population variance, which is non-negative. |
| Frames.NanMomentsAllNaN | main_fit_all.py:150-151 | An all-NaN column has mean and std NaN. |
| Frames.MeanWithinRange | main_fit_all.py:150 | The arithmetic mean lies between the minimum and maximum. |
| Frames.VarianceNonNegative | main_fit_all.py:151 | The population variance is non-negative. |
| Batch.FailureKeys | main_fit_all.py:111 | The keys of a failed row are non-empty exactly when the initial dict is truthy. |
| Batch.FailureRow | main_fit_all.py:111-113 | A failed row has the configured keys then chi_square, all NaN. |
| Batch.PixelRows | main_fit_all.py:93-114 | There is one row per pixel, in pixel order. |
| Batch.FailedPixelRow | main_fit_all.py:109-113 | A pixel whose fit raises gets a row of NaN with the configured keys and chi_square. |
| Batch.FittedPixelRow | main_fit_all.py:96-107 | A fitted pixel's row holds the fitted values and the fit's chi-square. |
| Batch.FitPixel | main_fit_all.py:96-113 | One loop iteration computes that pixel's row. |
| Batch.FitAllPixels | main_fit_all.py:93-114 | The loop appends every pixel's row in order. No row is dropped. |
| Batch.AddMetrics | main_fit_all.py:120-122 | The three metric columns are assigned. When none of them exists yet they come last, in order. |
| Batch.AssembleTable | main_fit_all.py:119-122 | The table has one row per pixel and holds the three metric columns. When no fit column already carries a metric's name, its columns are the fit columns followed by the three metrics. |
| Batch.AssembledFitColumns | main_fit_all.py:119-122 | A fit column of the table holds each row's value for that key (NaN where it is missing). |
| Batch.MomentsStep | main_fit_all.py:131-152 | One iteration records a column's moments exactly when its reshape and export succeed, and changes nothing otherwise. |
| Batch.MomentsAfterSpec | main_fit_all.py:130-152 | After n columns, the recorded columns are exactly those among the first n whose map was exported, each with its NaN-ignoring moments. |
| Batch.MomentsSpec | main_fit_all.py:130-152 | A column has moments if and only if it is in the table and its map was exported. The moments are its nanmean and nanstd. |
| Batch.NonSquareRecordsNothing | main_fit_all.py:134-148 | With a non-square pixel count, no moments are recorded at all. |
| Batch.CollectMoments | main_fit_all.py:130-153 | The loop over the columns computes exactly that moments dict. |
| Batch.Run | main_fit_all.py:88-153 | The run computes the metrics, fits, table and moments. It aborts exactly when `calculate_fwhm` raises. |
| Batch.RunShape | main_fit_all.py:119-122 | A completed run's table has one row per pixel and every column has that length. When no fit column already carries a metric's name, its columns are the fit columns then the three metrics. |
| Batch.AllFailedColumns | main_fit_all.py:109-119 | When every fit fails, the fit columns are the failure row's keys. |
| MainFitAll.InitialParams | main_fit_all.py:38-40 | The configured dict has keys amp, cen, fwhm_low and fwhm_high. |
| MainFitAll.FailureRowShape | main_fit_all.py:111-113 | A failed row is amp, cen, fwhm_low, fwhm_high, chi_square, all NaN. |
| MainFitAll.OverridesIgnored | main_fit_all.py:23-40 | 'asymmetric' fits the double Gaussian. None of the configured names is one of its parameters, so each parameter starts from its default guess, bounded below by 0. |
| MainFitAll.NoSharedNames | main_fit_all.py:38-40 | No configured name is a double-Gaussian parameter. |
| MainFitAll.MixedRowKeys | main_fit_all.py:98-113 | Fitted rows carry the six double-Gaussian names and chi_square. Failed rows carry the four configured names and chi_square. |
| MainFitAll.AllFailedTableColumns | main_fit_all.py:109-119 | When every fit fails, the fit columns are the four configured names and chi_square. |
| MainFit2.FailureRowShape | main_fit2.py:89-91 | With no configured dict, a failed row is chi_square = NaN alone. |
| MainFit2.DefaultsUsed | main_fit2.py:22-27 | 'single' with no overrides fits the default single guesses, bounded below by 0. |
| MainFit2.FittedRowKeys | main_fit2.py:77-86 | A fitted row carries amplitude, center, sigma and chi_square. |
| MainFit2.AllFailedTableColumns | main_fit2.py:87-98 | When every fit fails, a completed run's table columns are chi_square, Integrated Intensity, Weighted Mean and FWHM. |

The two scripts run the same loop, table and moments code
(main_fit2.py:72-129 matches main_fit_all.py:93-153 except for the periodic
`gc.collect()` and `del res`). `Batch` models that code once, and the
script modules supply each script's configuration.

## Left out

- The lmfit minimiser is an oracle parameter `fit`, so nothing about the fitted values is proved. `MainFitAll.MixedRowKeys` and `MainFit2.FittedRowKeys` assume the minimiser reports the parameters it was given, as lmfit does.
- lmfit clips starting values into their bounds. With a minimum of 0 that changes only negative guesses. This clipping happens inside the oracle and is not modelled.
- `np.exp` and `np.sqrt` are uninterpreted parameters. Floating point is modelled as exact reals plus NaN and ±infinity. Rounding, overflow and signed zero are not modelled.
- CalcUtils.ISqrt: `int(np.sqrt(n))` is modelled as the exact integer square root. Rounding of the float root for lengths near 2^52 is not modelled.
- CalcUtils.SortByX: `np.argsort` uses an unstable quicksort. The model uses a stable insertion sort, so the order of samples with equal energies is not modelled. When the energies are distinct, the two agree.
- CalcUtils.ConvertWavelengthToEnergy: a zero wavelength or hc = 0 makes numpy produce infinities and NaNs, and the sort order among them is numpy-specific. The model returns `None` for those inputs instead.
- CalcUtils.WeightedMean: intensities are finite reals, so the weighted sum of a window can only be non-finite by dividing by zero (NaN or ±infinity). Overflow is not modelled.
- Frames.NanMomentsFinite: with an infinite value, `np.nanmean` is modelled as the `Float` sum of the values (±infinity, or NaN when both signs occur), and `np.nanstd` as NaN. NanMean's contract states the arithmetic mean of the non-NaN values only for the all-finite case.
- Frames.SetColumn: requires the new column to have the table's height. pandas raises on a length mismatch, and every assignment in the scripts has the table's height.
- Fit failure covers every exception raised inside the `try` of the loop. `extract_fit_results` cannot raise in the model.
- `main_fit_all.py` selects the model string 'asymmetric'. `fit_utils.fit_model` has no asymmetric shape: any string other than 'single' fits the double Gaussian, and the model follows that code. An asymmetric peak shape is not part of this model.
- The `ax` plotting branch of `fit_model` (fit_utils.py:57-68) is not modelled. Both scripts pass `ax=None`.
- Loading, CSV writing, directory handling, the sample dialog, progress bars, `gc.collect()`, `del`, the printed messages, the correlation-matrix export and all plotting are I/O and not part of this model. The map export is an oracle `exportMap` that either succeeds or raises.
- io_utils.py, plot_utils.py, main_basic.py and main_fit1.py are not part of this model.
