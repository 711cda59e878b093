# ECG signal pipeline: a Dafny model

This project models the signal-processing core of an offline ECG batch
analyser (`src/ecg_processor.cpp`): the mean of a recording
(`processECGData`), the symmetric moving-average filter (`filterECGData`), the
naive band-pass filter built as the difference of two moving averages
(`bandpassFilter`), and the dynamic-threshold peak detector with refractory
suppression (`detectPeaksDynamic`). Samples are exact `real`s standing for the
source's `double`s.

Files and modules:

- `sums.dfy` (`Sums`): the left-to-right sum used by every stage.
- `basic_processing.dfy` (`BasicProcessing`): `processECGData`.
- `moving_average.dfy` (`MovingAverageFilter`): the reference function
  `MovingAverage` (each element is the `ProcessECGData` mean of its clipped
  window) and the method `FilterECGData`. That method fills a buffer of the
  input's size with a sum/count inner loop, as the source does.
- `bandpass.dfy` (`NaiveBandpass`): the reference function `Bandpass` and the
  method `BandpassFilter`. Both keep the source's order, low-pass minus
  high-pass.
- `refractory_selection.dfy` (`RefractorySelection`): the detector's
  left-to-right refractory rule, apart from the candidate test. `Select` is
  the reference definition of the scan over `[lo, end)`. The lemmas prove
  soundness, ordering and spacing, append-only growth, and the greedy
  "first wins" characterisation.
- `peak_detection.dfy` (`PeakDetection`): the local window, mean and
  threshold, the candidate test, the reference `DetectPeaks`, and the method
  `DetectPeaksDynamic` with its two inner accumulation loops.
- `peak_properties.dfy` (`PeakProperties`, `PeakScenarios`): what the
  detector promises about its result, and one concrete recording.

The square root the detector takes of the local variance is a library call.
It is the function-valued parameter `sqrt: real -> real` of the detector. No
property depends on its value, except three lemmas that state their assumption
about `sqrt` in their `requires`.

The model follows the code, including where it departs from what one might
assume of it:

- `DetectPeaksDynamic` requires `windowSize >= 2`. A window size of 0 divides
  by zero (line 108), and a window size of -2 or less gives a negative half
  window (C++ truncating division), so the scan starts at a negative index.
  A window size of -1 gives half window 0, so the scan covers `[0, n)` while
  both sums are divided by -1: the local mean is `-data[i]`, the square root
  gets the negative `-4 * data[i]^2`, and whenever the first test of line 117
  passes at index 0 the source reads `data[-1]`.
  A window size of 1 is excluded too, although the source is safe there: the
  window is the sample alone, the threshold equals the sample when the square
  root maps 0 to 0, and `data[i] > threshold` fails before line 117 reads a
  neighbour, so the source returns no peaks (`WindowOneNeverFires`). Every call
  site in the repository passes 100 (src/main.cpp:38-41).
- Suppression is `i - last < refractoryPeriod` (line 118), and that gap is
  always at least 1. So every `refractoryPeriod <= 1` disables suppression,
  not only a non-positive one (`NoSuppression`).
- The detector's window holds `2 * (windowSize / 2) + 1` samples, not a
  window of `windowSize + 1` samples: the two agree only for an even window
  size. The mean and the variance are both divided by `windowSize` (lines 108,
  114), so for an even window size the local mean is the true mean scaled by
  `(windowSize + 1) / windowSize` (`LocalMeanScale`).
- A recording yields no peaks when it is shorter than
  `2 * (windowSize / 2) + 1` samples, which is `windowSize + 1` only for an
  even window size (`PeaksInInterior`).

## Model

| member | source | states |
|---|---|---|
| BasicProcessing.ProcessECGData | src/ecg_processor.cpp:58-62 | the mean of an empty recording is 0; otherwise the mean times the length is the sum of the samples |
| BasicProcessing.MeanWithinBounds | src/ecg_processor.cpp:58-62 | the mean of a non-empty recording lies between any lower and upper bound of its samples |
| BasicProcessing.MeanOfConstant | src/ecg_processor.cpp:58-62 | the mean of a constant recording is that constant |
| MovingAverageFilter.Window | src/ecg_processor.cpp:76-77 | the in-bounds part of the window around i always contains sample i, so it holds between 1 and 2 * half + 1 samples and the division on line 82 never divides by zero |
| MovingAverageFilter.MovingAverage | src/ecg_processor.cpp:65-85 | the smoothed sequence has the length of the input |
| MovingAverageFilter.AccumulateWindow | src/ecg_processor.cpp:74-81 | the inner loop's sum and count are the sum and the size of the clipped window around i |
| MovingAverageFilter.FilterECGData | src/ecg_processor.cpp:65-85 | the method returns exactly MovingAverage: the input unchanged for an empty input or a window size <= 0, otherwise at each index the mean of the in-bounds samples of [i - w/2, i + w/2] |
| MovingAverageFilter.MovingAverageWithinBounds | src/ecg_processor.cpp:70-83 | every smoothed sample lies between any lower and upper bound of the input |
| MovingAverageFilter.ConstantIsFixed | src/ecg_processor.cpp:70-83 | a constant recording is returned unchanged for every window size |
| MovingAverageFilter.WindowOneIsIdentity | src/ecg_processor.cpp:70-83 | window size 1 returns the input unchanged |
| MovingAverageFilter.SingleSampleIsFixed | src/ecg_processor.cpp:67-83 | a one-sample recording [a] gives [a] for every window size |
| NaiveBandpass.Bandpass | src/ecg_processor.cpp:88-96 | the band-passed sequence has the length of the input |
| NaiveBandpass.BandpassFilter | src/ecg_processor.cpp:88-96 | the method returns exactly Bandpass: at each index the low-window average minus the high-window average |
| NaiveBandpass.AlikeWindowsCancel | src/ecg_processor.cpp:89-94 | equal window sizes, or two window sizes both <= 1, give all zeros |
| NaiveBandpass.SwappedWindowsNegate | src/ecg_processor.cpp:93 | swapping the two window sizes negates every output sample |
| NaiveBandpass.SubtractionOrderMatters | src/ecg_processor.cpp:93 | the order of subtraction is significant: on [0, 3, 0] the middle sample gives -2 with windows (3, 1) and 2 with windows (1, 3) |
| NaiveBandpass.FineWindowLeavesResidual | src/ecg_processor.cpp:89-94 | with a high window size <= 1 the output is the smoothed input minus the input |
| NaiveBandpass.BandpassWithinSpread | src/ecg_processor.cpp:89-94 | an input confined to [lo, hi] gives output confined to [lo - hi, hi - lo] |
| NaiveBandpass.ConstantHasNoBand | src/ecg_processor.cpp:89-94 | a constant input gives all zeros |
| Sums.Sum | src/ecg_processor.cpp:105-107 | definition: the sum of a sequence accumulated from the front, as the accumulation of line 60, line 78 and lines 105-107 does |
| PeakDetection.SqDev | src/ecg_processor.cpp:110-113 | definition: the sum of (x - m) * (x - m) over the samples, accumulated from the front as the loop of lines 110-113 does |
| PeakDetection.InInterior | src/ecg_processor.cpp:103 | definition: the scan range windowSize / 2 <= i < n - windowSize / 2 |
| PeakDetection.LocalMean | src/ecg_processor.cpp:108 | definition: the sum of the window around i divided by windowSize, not by the window's size |
| PeakDetection.Threshold | src/ecg_processor.cpp:114-115 | definition: the local mean plus multiplier times sqrt of the squared deviations divided by windowSize |
| PeakDetection.IsCandidate | src/ecg_processor.cpp:117 | definition: i is interior, data[i] exceeds its threshold, and data[i] exceeds both data[i - 1] and data[i + 1] |
| RefractorySelection.Refractory | src/ecg_processor.cpp:118 | definition: some index has been accepted and i minus the last accepted index is below refractoryPeriod |
| RefractorySelection.Select | src/ecg_processor.cpp:117-121 | definition of the scan over [lo, end): the scan up to end - 1, extended by end - 1 when that index is a candidate and not refractory |
| PeakDetection.DetectPeaks | src/ecg_processor.cpp:99-125 | definition of the detector's result: Select of the candidates over [windowSize / 2, n - windowSize / 2) |
| PeakDetection.SqDevNonNegative | src/ecg_processor.cpp:110-114 | the squared-deviation sum handed (divided by windowSize) to the square root is never negative |
| PeakDetection.LocalWindow | src/ecg_processor.cpp:105 | the detector's window around an interior index is never cut off and holds 2 * (windowSize / 2) + 1 samples |
| PeakDetection.WindowSum | src/ecg_processor.cpp:104-107 | the first inner loop computes the sum of the window |
| PeakDetection.WindowSqDev | src/ecg_processor.cpp:110-113 | the second inner loop computes the sum of squared deviations of the window from the local mean |
| PeakDetection.LocalThreshold | src/ecg_processor.cpp:104-115 | the computed threshold is the local mean plus multiplier times the root of the squared deviations divided by windowSize |
| PeakDetection.DetectPeaksDynamic | src/ecg_processor.cpp:99-125 | for windowSize >= 2 the method returns exactly DetectPeaks, the greedy refractory selection of the candidates of [windowSize/2, n - windowSize/2) in scan order |
| RefractorySelection.SelectSound | src/ecg_processor.cpp:117-121 | every index the scan over [lo, end) accepts is a candidate in [lo, end) |
| RefractorySelection.SelectOrdered | src/ecg_processor.cpp:103-121 | the accepted indices are strictly increasing and consecutive ones are at least refractoryPeriod apart |
| RefractorySelection.SelectExtends | src/ecg_processor.cpp:118-121 | the scan only appends: what is accepted up to e1 is a prefix of what is accepted up to any later e2, and the rest is at least e1 |
| RefractorySelection.AcceptedBefore | src/ecg_processor.cpp:118-121 | the accepted indices below i are exactly those accepted by the time the scan reaches i |
| RefractorySelection.SelectGreedyAt | src/ecg_processor.cpp:117-121 | i is accepted if and only if it is a candidate not within refractoryPeriod of the last index accepted before it |
| RefractorySelection.SelectGreedySpaced | src/ecg_processor.cpp:117-121 | i is accepted if and only if it is a candidate at least refractoryPeriod after every accepted index before it |
| RefractorySelection.SelectGreedy | src/ecg_processor.cpp:117-121 | the same characterisation for every index at once, with the range [lo, end) |
| RefractorySelection.SelectAllWhenNoRefractory | src/ecg_processor.cpp:118 | with refractoryPeriod <= 1 an index is accepted if and only if it is a candidate in [lo, end) |
| PeakProperties.LocalMeanScale | src/ecg_processor.cpp:105-108 | the local mean times windowSize equals the true window mean times 2 * (windowSize / 2) + 1; for odd windowSize the two means coincide |
| PeakProperties.WindowOneNeverFires | src/ecg_processor.cpp:104-117 | with windowSize 1 and a square root mapping 0 to 0, the threshold of a one-sample window equals the sample, so the test data[i] > threshold never holds and no peak is returned |
| PeakProperties.PeaksInInterior | src/ecg_processor.cpp:102-103 | every returned index lies in [windowSize/2, n - windowSize/2); a recording shorter than 2 * (windowSize / 2) + 1, the empty one included, yields no peaks |
| PeakProperties.PeaksAreLocalMaxima | src/ecg_processor.cpp:115-117 | every returned index is interior, above its local threshold and a strict local maximum against both neighbours; no two returned indices are adjacent |
| PeakProperties.PeaksSpaced | src/ecg_processor.cpp:103-121 | returned indices are strictly increasing and consecutive ones differ by at least refractoryPeriod |
| PeakProperties.PeaksGreedy | src/ecg_processor.cpp:117-121 | an index is returned if and only if it is a candidate at least refractoryPeriod after every returned index before it: first wins, and nothing accepted is ever removed |
| PeakProperties.FirstInWindowWins | src/ecg_processor.cpp:118-119 | a later index less than refractoryPeriod after a returned one is never returned |
| PeakProperties.NoSuppression | src/ecg_processor.cpp:118 | with refractoryPeriod <= 1 an index is returned if and only if it is a candidate |
| PeakProperties.PeaksAboveLocalMean | src/ecg_processor.cpp:108-117 | with a non-negative multiplier and a non-negative square root every returned sample exceeds its local mean |
| PeakScenarios.SingleSpike | src/ecg_processor.cpp:99-125 | [0,0,0,10,0,0,0] with windowSize 4, multiplier 1, refractory period 1 gives [3], for any square root exact on non-negative arguments |

## Left out

- `loadECGData` and `loadGroundTruthPeaks` (src/ecg_processor.cpp:11-55, 153-166): they read files, print warnings and parse numbers with `std::stod`. This is I/O with library parsing.
- `exportPeakDetectionResults` (src/ecg_processor.cpp:128-150): it only writes a CSV file.
- The drivers src/main.cpp and src/mainBackup.cpp: hard-coded paths, directory iteration, `std::chrono` timing, console output and skipping a file whose load fails. The code shown has no worker pool, so there is no concurrency to model.
- Floating point: IEEE rounding, the order in which sums are rounded, and the NaN or infinity from dividing by zero. Samples are exact reals.
- The value of `std::sqrt`: it is the parameter `sqrt`. No property depends on the root's value except `PeaksAboveLocalMean`, `SingleSpike` and `WindowOneNeverFires`, which state what they assume of it.
- Integer widths: `int dataSize = data.size()` overflows past 2^31 - 1 samples, and the `int` loop bounds overflow as soon as an index, or `i + windowSize / 2` (line 76), exceeds 2^31 - 1. Lengths and indices are unbounded here. Every division modelled is of a positive `windowSize`, so C++ truncation and Dafny division agree.
- `detectPeaksDynamic` with `windowSize < 2`: the source divides by zero at 0, negates the mean, takes the root of a negative number and can read `data[-1]` at -1, and starts the scan at a negative index for -2 or less, so the model requires `windowSize >= 2`. For windowSize 1 the source safely returns no peaks; that case is covered only by the lemma `WindowOneNeverFires`, not by `DetectPeaksDynamic`.
- `PeakDetection.DetectPeaksDynamic`: the result vector grown by `push_back` is a local `seq` extended by appending. The `continue` after a suppressed candidate is written as an `if` around the append, which has the same behaviour.
- `MovingAverageFilter.FilterECGData`, `NaiveBandpass.BandpassFilter`: the result vector sized up front is a freshly allocated array, filled index by index and returned as a sequence.
