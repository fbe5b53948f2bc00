# Express-log histogram binning, modelled in Dafny

This project models the express-log `Histogram` metric wrapper of the Android
framework (`com.android.internal.expresslog.Histogram`). A histogram binds a
metric id hash to a `BinOptions` policy. `logSample` asks the policy for the
sample's bin and writes one event: the metric id hash, a count of 1 and the
bin index. The only policy is `UniformOptions`. It has `binCount` equal-width
interior bins over the half-open range `[minValue, exclusiveMaxValue)`. Index 0
is the underflow bin and the last index is the overflow bin.

Files:

- `java_types.dfy`, module `JavaTypes`: Java `int` and `long` as subset types,
  32-bit wrap-around of `int` addition, and the narrowing `(int)` cast of a
  floating-point value (rounds toward zero, saturates at the `int` range).
- `histogram.dfy`, module `ExpressLog`:
  - `UniformOptions` is a datatype holding the source's stored fields. Its
    `Valid()` predicate is what the constructor establishes.
  - `NewUniformOptions` is the validating constructor. It returns a `Result`
    whose failure cases are the `IllegalArgumentException`s.
  - `BinOptions` is the interface, written as a tagged union.
  - `Histogram.LogSample` returns the event handed to the stats writer.

Java `float` is modelled as exact `real`. The bin width is therefore exactly
`(exclusiveMaxValue - minValue) / binCount`, and the partition properties
below hold exactly.

The bin index is computed as the source writes it, `(int)((sample - min) / binSize + 1)`.
The cast is modelled as truncation toward zero with saturation. On the interior
branch its argument is at least 1, so this agrees with `floor((sample - min) / binSize) + 1`.

## Model

| member | source | states |
|---|---|---|
| `JavaTypes.WrapInt32` | core/java/com/android/internal/expresslog/Histogram.java:103 | The result is a Java `int` congruent to the exact sum modulo 2^32. It equals the exact value whenever that value fits in an `int`. |
| `JavaTypes.FloatToInt` | core/java/com/android/internal/expresslog/Histogram.java:120 | The `(int)` cast rounds toward zero for arguments within the `int` range: the result is within 1 below a non-negative argument, and within 1 above a negative one. Larger arguments saturate to `Integer.MAX_VALUE` and smaller ones to `Integer.MIN_VALUE`. |
| `ExpressLog.NewUniformOptions` | core/java/com/android/internal/expresslog/Histogram.java:89-104 | Fails with `NonPositiveBinCount` exactly when `binCount < 1`, which is checked first. Fails with `InvalidRange` when the count is acceptable and `exclusiveMaxValue <= minValue`. Fails with `BinCountTooLarge` when `binCount + 2` does not fit in an `int` (see Findings). Otherwise it succeeds with valid options that keep `minValue` and `exclusiveMaxValue`. The total bin count is `binCount + 2`, and `binCount` bins of width `binSize` exactly span the range. |
| `ExpressLog.UniformOptions.GetBinsCount` | core/java/com/android/internal/expresslog/Histogram.java:102-109 | The total is the interior count plus the two extra bins. It is at least 3. |
| `ExpressLog.UniformOptions.GetBinForSample` | core/java/com/android/internal/expresslog/Histogram.java:111-121 | The index lies in `[0, getBinsCount())`. It is 0 exactly when `sample < minValue`. It is `getBinsCount() - 1` exactly when `sample >= exclusiveMaxValue`. Inside the range, the sample lies in the half-open interval `[min + (r-1)*binSize, min + r*binSize)` of the bin `r` it gets. |
| `ExpressLog.UniformOptions.InteriorBin` | core/java/com/android/internal/expresslog/Histogram.java:120 | For a sample in `[minValue, exclusiveMaxValue)`, the arithmetic branch gives an index in `[1, binCount]`. The sample lies in that bin's interval, so the cast never saturates there. |
| `ExpressLog.UniformOptions.LastEdgeIsMax` | core/java/com/android/internal/expresslog/Histogram.java:98-100 | With the derived width, the upper edge of the last interior bin is exactly `exclusiveMaxValue`. |
| `ExpressLog.UniformOptions.EdgeOrder` | core/java/com/android/internal/expresslog/Histogram.java:100 | Bin edges are strictly increasing in the bin index, in both directions of the equivalence. |
| `ExpressLog.UniformOptions.InteriorBinIsUnique` | core/java/com/android/internal/expresslog/Histogram.java:112-121 | This is the converse of the interval property. Every sample in interior bin `k`'s interval is assigned to `k`. The interior bins therefore partition the range with no gaps and no overlap. |
| `ExpressLog.UniformOptions.MinValueIsFirstInteriorBin` | core/java/com/android/internal/expresslog/Histogram.java:82-83 | `minValue` itself is assigned to bin 1, the first interior bin. |
| `ExpressLog.UniformOptions.JustBelowMaxIsLastInteriorBin` | core/java/com/android/internal/expresslog/Histogram.java:84-86 | Any sample `exclusiveMaxValue - e` with `0 < e <= binSize` is in the last interior bin, `getBinsCount() - 2`. |
| `ExpressLog.UniformOptions.BinIsMonotone` | core/java/com/android/internal/expresslog/Histogram.java:112-121 | `a <= b` implies `getBinForSample(a) <= getBinForSample(b)`. |
| `ExpressLog.UniformOptions.EveryBinIsReachable` | core/java/com/android/internal/expresslog/Histogram.java:53-58 | Every index in `[0, getBinsCount())` is the bin of some sample. `getBinsCount()` is thus exactly the number of bins used, underflow and overflow included. |
| `ExpressLog.BinOptions.GetBinsCount` | core/java/com/android/internal/expresslog/Histogram.java:53-58 | The count includes the underflow and overflow bins, so it is at least 2. |
| `ExpressLog.BinOptions.GetBinForSample` | core/java/com/android/internal/expresslog/Histogram.java:60-67 | This is the interface contract. The index is zero-based and below `getBinsCount()`. Index 0 is returned exactly for underflowing samples, and the last index exactly for overflowing ones. |
| `ExpressLog.Histogram.LogSample` | core/java/com/android/internal/expresslog/Histogram.java:45-49 | The single written event carries the histogram's metric id hash, a count of 1, and the bin the options assign to the sample. That bin lies in `[0, getBinsCount())`. |
| `ExpressLog.NewHistogram` | core/java/com/android/internal/expresslog/Histogram.java:35-38 | The metric id hash is the string hash of the metric id, fixed at construction. The options are kept unchanged. |
| `ExpressLog.SameMetricIdSameEvent` | core/java/com/android/internal/expresslog/Histogram.java:35-49 | Take two histograms built from the same metric id whose options agree on a sample's bin. They log that sample as the identical event. |
| `ExpressLog.TenUnitBins` | core/java/com/android/internal/expresslog/Histogram.java:89-121 | Constructions with `binCount = 0`, and with `min = 10, max = 5`, are rejected. Ten bins over `[0, 10)` give 12 bins in total. The samples -1, 0, 5.5, 9.999, 10 and 1000 go to bins 0, 1, 6, 10, 11 and 11. Logging 5.5 for metric "test.metric" writes `(hash("test.metric"), 1, 6)`. |
| `ExpressLog.BinsCountAsWritten` | core/java/com/android/internal/expresslog/Histogram.java:102-103 | Line 103 computes `binCount + 2` in `int` arithmetic. The result equals the exact sum for `binCount <= Integer.MAX_VALUE - 2`, and wraps by 2^32 above that. |
| `ExpressLog.BinsCountWrapsAsWritten` | core/java/com/android/internal/expresslog/Histogram.java:102-103 | For `binCount = Integer.MAX_VALUE` and `Integer.MAX_VALUE - 1`, the source's total bin count is negative. Its overflow index `mBinCount - 1` is then `Integer.MIN_VALUE` or `Integer.MAX_VALUE`, and neither is a valid bin. |

## Left out

- Floating point. `float` is modelled as exact `real`. The model does not capture:
  - rounding in `binSize` and in the division of line 120, which can shift a sample near a bin edge by one bin;
  - NaN, which fails both comparisons and reaches the arithmetic branch, where Java's cast turns it into 0;
  - infinities, and a range too wide for `float`.
- `FrameworkStatsLog.write` is the stats writer and is external I/O. `LogSample` returns the event triple instead of writing it. The atom id `EXPRESS_HISTOGRAM_SAMPLE_REPORTED` is not part of the event, because its value is not defined in this file.
- `Utils.hashString` is not part of this model. Its source is not available. `NewHistogram` takes the hash as a function parameter (`string -> Int64`), so the only thing assumed of it is that it is deterministic.
- Thread safety is left out. All fields are final and nothing is mutated after construction, so the model has no state to share.
- The `@NonNull` annotations are left out. Dafny values cannot be null.

## Findings

| source | as written | input that shows it | evidently intended | confidence | as-written member | corrected member |
|---|---|---|---|---|---|---|
| core/java/com/android/internal/expresslog/Histogram.java:90-103 | `mBinCount = binCount + 2` is `int` arithmetic, and the only upper check on `binCount` is its type | `new UniformOptions(Integer.MAX_VALUE, 0f, 1f)`: `getBinsCount()` is `-2147483647` and a sample `>= 1f` gets index `Integer.MIN_VALUE`. With `Integer.MAX_VALUE - 1`, `getBinsCount()` is `Integer.MIN_VALUE` and the overflow index is `Integer.MAX_VALUE` | The total bin count is `binCount + 2` and every index lies in `[0, getBinsCount())`, so a `binCount` whose total does not fit in an `int` should be rejected | high (not executed) | `ExpressLog.BinsCountWrapsAsWritten` | `ExpressLog.NewUniformOptions` |

The corrected constructor rejects `binCount > Integer.MAX_VALUE - 2` with `BinCountTooLarge`. The rest of the model is built on that constructor.
