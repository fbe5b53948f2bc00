/** The express-log histogram: a bin-assignment policy (uniform bins with an
    underflow and an overflow bin) and the single-count event a histogram
    hands to the stats writer for each sample. Java `float` values are
    modelled as exact reals. */
module ExpressLog {
  import opened JavaTypes

  datatype Result<T, E> = Success(value: T) | Failure(error: E)

  /** Why a UniformOptions configuration is refused (an IllegalArgumentException
      in the source). */
  datatype ConfigError =
    | NonPositiveBinCount   // binCount < 1
    | BinCountTooLarge      // binCount + 2 does not fit in an int (see the findings)
    | InvalidRange          // exclusiveMaxValue <= minValue

  /** The stored fields of UniformOptions: `binsCount` is the total bin count
      (interior bins plus underflow and overflow), `binSize` the width of one
      interior bin. */
  datatype UniformOptions = UniformOptions(
    binsCount: Int32,
    minValue: real,
    exclusiveMaxValue: real,
    binSize: real)
  {
    /** What the constructor establishes: at least one interior bin, a
        non-empty range, and the width that splits it evenly. */
    predicate Valid() {
      && 3 <= binsCount
      && minValue < exclusiveMaxValue
      && binSize == (exclusiveMaxValue - minValue) / (binsCount - 2) as real
    }

    /** Number of interior bins, the `binCount` given to the constructor. */
    function InteriorCount(): int {
      binsCount - 2
    }

    /** Inclusive lower edge of interior bin `k`; interior bin `k` covers
        [LowerEdge(k), LowerEdge(k + 1)). */
    function LowerEdge(k: int): real {
      minValue + (k - 1) as real * binSize
    }

    function GetBinsCount(): (r: Int32)
      requires Valid()
      ensures r >= 3
      ensures r == InteriorCount() + 2
    {
      binsCount
    }

    /** Zero-based bin of `sample`: 0 below the range, the last bin at or above
        the exclusive maximum, otherwise the interior bin whose half-open
        interval holds the sample. */
    function GetBinForSample(sample: real): (r: Int32)
      requires Valid()
      ensures 0 <= r < GetBinsCount()
      ensures r == 0 <==> sample < minValue
      ensures r == GetBinsCount() - 1 <==> exclusiveMaxValue <= sample
      ensures minValue <= sample < exclusiveMaxValue ==>
                LowerEdge(r) <= sample < LowerEdge(r + 1)
    {
      if sample < minValue then
        0
      else if sample >= exclusiveMaxValue then
        binsCount - 1
      else
        InteriorBin(sample);
        FloatToInt((sample - minValue) / binSize + 1.0)
    }

    /** The arithmetic branch of GetBinForSample lands in an interior bin
        whose interval holds the sample. */
    lemma InteriorBin(sample: real)
      requires Valid()
      requires minValue <= sample < exclusiveMaxValue
      ensures var k := FloatToInt((sample - minValue) / binSize + 1.0);
              1 <= k <= InteriorCount() && LowerEdge(k) <= sample < LowerEdge(k + 1)
    {
      var n := InteriorCount() as real;
      var d := sample - minValue;
      LastEdgeIsMax();
      assert d < n * binSize;
      DivBelow(d, binSize, n);
      var q := d / binSize;
      var k := FloatToInt(q + 1.0);
      QuotientBracket(d, binSize, k);
      assert LowerEdge(k + 1) == minValue + k as real * binSize;
    }

    /** The last interior bin ends exactly at the exclusive maximum. */
    lemma LastEdgeIsMax()
      requires Valid()
      ensures LowerEdge(InteriorCount() + 1) == exclusiveMaxValue
    {
    }

    /** Interior edges are strictly increasing in the bin index. */
    lemma EdgeOrder(i: int, j: int)
      requires Valid()
      ensures i < j <==> LowerEdge(i) < LowerEdge(j)
    {
    }

    /** Every sample in [LowerEdge(k), LowerEdge(k + 1)) of interior bin k is
        assigned to bin k: the interior bins partition the range. */
    lemma InteriorBinIsUnique(sample: real, k: int)
      requires Valid()
      requires 1 <= k <= InteriorCount()
      requires LowerEdge(k) <= sample < LowerEdge(k + 1)
      ensures GetBinForSample(sample) == k
    {
      EdgeOrder(1, k);
      EdgeOrder(k + 1, InteriorCount() + 1);
      LastEdgeIsMax();
      var j := GetBinForSample(sample);
      EdgeOrder(j, k + 1);
      EdgeOrder(k, j + 1);
    }

    /** The minimum is included in the first interior bin. */
    lemma MinValueIsFirstInteriorBin()
      requires Valid()
      ensures GetBinForSample(minValue) == 1
    {
    }

    /** A sample less than one bin width below the exclusive maximum is in
        the last interior bin. */
    lemma JustBelowMaxIsLastInteriorBin(epsilon: real)
      requires Valid()
      requires 0.0 < epsilon <= binSize
      ensures GetBinForSample(exclusiveMaxValue - epsilon) == GetBinsCount() - 2
    {
      LastEdgeIsMax();
      InteriorBinIsUnique(exclusiveMaxValue - epsilon, InteriorCount());
    }

    /** Bin assignment is monotone in the sample. */
    lemma BinIsMonotone(a: real, b: real)
      requires Valid()
      requires a <= b
      ensures GetBinForSample(a) <= GetBinForSample(b)
    {
      var i, j := GetBinForSample(a), GetBinForSample(b);
      if minValue <= a && b < exclusiveMaxValue {
        EdgeOrder(i, j + 1);
      }
    }

    /** Every index below GetBinsCount() is the bin of some sample, so
        GetBinsCount() is exactly the number of bins the options produce. */
    lemma EveryBinIsReachable(k: int)
      requires Valid()
      requires 0 <= k < GetBinsCount()
      ensures exists sample :: GetBinForSample(sample) == k
    {
      if k == 0 {
        assert GetBinForSample(minValue - 1.0) == 0;
      } else if k == GetBinsCount() - 1 {
        assert GetBinForSample(exclusiveMaxValue) == k;
      } else {
        EdgeOrder(k, k + 1);
        InteriorBinIsUnique(LowerEdge(k), k);
      }
    }
  }

  // Steps of real arithmetic, stated separately so each is proved on its own.

  lemma MulRightMono(a: real, b: real, c: real)
    requires a <= b && 0.0 < c
    ensures a * c <= b * c
  {
  }

  lemma MulRightStrict(a: real, b: real, c: real)
    requires a < b && 0.0 < c
    ensures a * c < b * c
  {
  }

  lemma DivBelow(d: real, c: real, n: real)
    requires 0.0 < c && d < n * c
    ensures d / c < n
  {
  }

  lemma QuotientBracket(d: real, c: real, k: int)
    requires 0.0 < c
    requires k as real <= d / c + 1.0 < k as real + 1.0
    ensures (k - 1) as real * c <= d < k as real * c
  {
    var q := d / c;
    assert q * c == d;
    MulRightMono((k - 1) as real, q, c);
    MulRightStrict(q, k as real, c);
  }

  /** The UniformOptions constructor: validates the configuration and derives
      the bin width and the total bin count. */
  function NewUniformOptions(binCount: Int32, minValue: real, exclusiveMaxValue: real)
    : (r: Result<UniformOptions, ConfigError>)
    ensures binCount < 1 ==> r == Failure(NonPositiveBinCount)
    ensures 1 <= binCount && binCount > MAX_INT32 - 2 ==> r == Failure(BinCountTooLarge)
    ensures 1 <= binCount <= MAX_INT32 - 2 && exclusiveMaxValue <= minValue ==>
              r == Failure(InvalidRange)
    ensures r.Success? <==> 1 <= binCount <= MAX_INT32 - 2 && minValue < exclusiveMaxValue
    ensures r.Success? ==>
              && r.value.Valid()
              && r.value.GetBinsCount() == binCount + 2
              && r.value.minValue == minValue
              && r.value.exclusiveMaxValue == exclusiveMaxValue
              && r.value.binSize * binCount as real == exclusiveMaxValue - minValue
  {
    if binCount < 1 then
      Failure(NonPositiveBinCount)
    else if binCount > MAX_INT32 - 2 then
      Failure(BinCountTooLarge)
    else if exclusiveMaxValue <= minValue then
      Failure(InvalidRange)
    else
      Success(UniformOptions(binCount + 2, minValue, exclusiveMaxValue,
                             (exclusiveMaxValue - minValue) / binCount as real))
  }

  /** The total bin count as the source computes it, in 32-bit `int`
      arithmetic. */
  function BinsCountAsWritten(binCount: Int32): (r: Int32)
    ensures 1 <= binCount <= MAX_INT32 - 2 ==> r == binCount + 2
    ensures MAX_INT32 - 2 < binCount ==> r == binCount + 2 - 0x1_0000_0000
  {
    WrapInt32(binCount + 2)
  }

  /** The two largest bin counts the source accepts give a negative total bin
      count, so no index can lie in [0, getBinsCount()), and the overflow index
      `mBinCount - 1` is not a valid bin either. */
  lemma BinsCountWrapsAsWritten()
    ensures BinsCountAsWritten(MAX_INT32) == -0x7FFF_FFFF
    ensures BinsCountAsWritten(MAX_INT32 - 1) == MIN_INT32
    ensures WrapInt32(BinsCountAsWritten(MAX_INT32 - 1) - 1) == MAX_INT32
    ensures WrapInt32(BinsCountAsWritten(MAX_INT32) - 1) == MIN_INT32
  {
  }

  /** The BinOptions interface, as a tagged union of its implementations. */
  datatype BinOptions = Uniform(uniform: UniformOptions)
  {
    predicate Valid() {
      match this
      case Uniform(u) => u.Valid()
    }

    /** The samples the underflow bin stands for. */
    predicate Underflows(sample: real) {
      match this
      case Uniform(u) => sample < u.minValue
    }

    /** The samples the overflow bin stands for. */
    predicate Overflows(sample: real) {
      match this
      case Uniform(u) => u.exclusiveMaxValue <= sample
    }

    /** Total bin count, underflow and overflow bins included. */
    function GetBinsCount(): (r: Int32)
      requires Valid()
      ensures r >= 2
    {
      match this
      case Uniform(u) => u.GetBinsCount()
    }

    /** Zero-based bin index: 0 is the underflow bin and GetBinsCount() - 1 the
        overflow bin. */
    function GetBinForSample(sample: real): (r: Int32)
      requires Valid()
      ensures 0 <= r < GetBinsCount()
      ensures r == 0 <==> Underflows(sample)
      ensures r == GetBinsCount() - 1 <==> Overflows(sample)
    {
      match this
      case Uniform(u) => u.GetBinForSample(sample)
    }
  }

  /** The event handed to the stats writer: metric id hash, count and bin index. */
  datatype SampleEvent = SampleEvent(metricIdHash: Int64, count: Int32, binIndex: Int32)

  /** A histogram metric: the hash of its metric id and its bin options. */
  datatype Histogram = Histogram(metricIdHash: Int64, binOptions: BinOptions)
  {
    /** The one event written for `sample`: count 1 in the sample's bin. */
    function LogSample(sample: real): (e: SampleEvent)
      requires binOptions.Valid()
      ensures e.metricIdHash == metricIdHash
      ensures e.count == 1
      ensures 0 <= e.binIndex < binOptions.GetBinsCount()
      ensures e.binIndex == binOptions.GetBinForSample(sample)
    {
      SampleEvent(metricIdHash, 1, binOptions.GetBinForSample(sample))
    }
  }

  /** The Histogram constructor; `hashString` stands for the string hash the
      metric id is reduced to. */
  function NewHistogram(hashString: string -> Int64, metricId: string, binOptions: BinOptions)
    : (h: Histogram)
    ensures h.metricIdHash == hashString(metricId)
    ensures h.binOptions == binOptions
  {
    Histogram(hashString(metricId), binOptions)
  }

  /** Two histograms built for the same metric id log the same sample as the
      same event when their options agree on it, whatever else differs. */
  lemma SameMetricIdSameEvent(hashString: string -> Int64, metricId: string,
                              o1: BinOptions, o2: BinOptions, sample: real)
    requires o1.Valid() && o2.Valid()
    requires o1.GetBinForSample(sample) == o2.GetBinForSample(sample)
    ensures NewHistogram(hashString, metricId, o1).LogSample(sample)
         == NewHistogram(hashString, metricId, o2).LogSample(sample)
  {
  }

  /** Ten unit bins over [0, 10). */
  lemma TenUnitBins(hashString: string -> Int64)
    ensures NewUniformOptions(0, 0.0, 10.0) == Failure(NonPositiveBinCount)
    ensures NewUniformOptions(5, 10.0, 5.0) == Failure(InvalidRange)
    ensures var r := NewUniformOptions(10, 0.0, 10.0);
            && r.Success?
            && r.value.GetBinsCount() == 12
            && r.value.GetBinForSample(-1.0) == 0
            && r.value.GetBinForSample(0.0) == 1
            && r.value.GetBinForSample(5.5) == 6
            && r.value.GetBinForSample(9.999) == 10
            && r.value.GetBinForSample(10.0) == 11
            && r.value.GetBinForSample(1000.0) == 11
            && NewHistogram(hashString, "test.metric", Uniform(r.value)).LogSample(5.5)
               == SampleEvent(hashString("test.metric"), 1, 6)
  {
  }
}
