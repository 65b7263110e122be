/**
 The outlier detector shared by contract governance (`governance.rs`): a top-trimmed
 median-absolute-deviation threshold over log cost/benefit ratios, clamped at a
 capacity ceiling.

 Ratios are exact reals.  The map of samples is the sequence of its entries in the
 order the map yields them, each with what the extractor returned for it.
 */
module Governance {
  import opened Reals
  import opened StableSort
  import opened Wrappers

  /** What `extract_log_ratio` gave for one sample. */
  datatype Extracted = Unscoreable | NonFinite | Finite(ratio: real)

  datatype OutlierConfig = OutlierConfig(k: real, minSamples: nat, trimFraction: real)

  datatype SkipReason = InsufficientSamples | MadCollapsed | NoExtractableRatios

  datatype OutlierResult<K> = OutlierResult(
    flagged: seq<K>,
    median: Option<real>,
    mad: Option<real>,
    threshold: Option<real>,
    ceilingBinding: bool,
    sampleSize: nat,
    trimmedSampleSize: nat,
    skipReason: Option<SkipReason>)

  const MAD_GAUSSIAN_CONSISTENCY: real := 1.4826

  /** The machine epsilon of a 64-bit float, 2 to the power -52. */
  const EPSILON: real := 1.0 / 4503599627370496.0

  const ASCENDING: (real, real) -> bool := (a, b) => a <= b

  function ByRatio<K>(): ((K, real), (K, real)) -> bool {
    (a: (K, real), b: (K, real)) => a.1 <= b.1
  }

  function RatioOf<K>(): ((K, real)) -> real {
    (p: (K, real)) => p.1
  }

  function KeyOf<K>(): ((K, real)) -> K {
    (p: (K, real)) => p.0
  }

  function Above<K>(threshold: real): ((K, real)) -> bool {
    (p: (K, real)) => p.1 > threshold
  }

  function Usable<K>(sample: (K, Extracted)): seq<(K, real)> {
    if sample.1.Finite? then [(sample.0, sample.1.ratio)] else []
  }

  /** The entries with a usable ratio, in order. */
  function ExtractPairs<K>(samples: seq<(K, Extracted)>): seq<(K, real)> {
    if samples == [] then []
    else
      ExtractPairs(samples[..|samples| - 1]) + Usable(samples[|samples| - 1])
  }

  lemma ScaledLength(n: nat, f: real)
    ensures f <= 0.0 ==> n as real * f <= 0.0
    ensures f >= 1.0 ==> n as real * f >= n as real
    ensures 0.0 <= f < 1.0 ==> 0.0 <= n as real * f && (n > 0 ==> n as real * f < n as real)
  {
  }

  /** How many of `n` sorted samples are kept: the float-to-integer cast saturates at zero. */
  function TrimmedLen(n: nat, trimFraction: real): (t: nat)
    ensures t <= n
    ensures trimFraction <= 0.0 ==> t == n
    ensures trimFraction >= 1.0 ==> t == 0
    ensures 0.0 <= trimFraction < 1.0 ==> (n - t) as real <= n as real * trimFraction < (n - t) as real + 1.0
  {
    ScaledLength(n, trimFraction);
    var trim := (n as real * trimFraction).Floor;
    if trim <= 0 then n else if trim >= n then 0 else n - trim
  }

  /**
   The middle of an ordered, nonempty sequence.  At least half of the elements are on
   either side of it, whichever parity the length has.
   */
  function MedianOfSorted(s: seq<real>): (m: real)
    requires |s| > 0
    ensures Ordered(ASCENDING, s) ==> s[(|s| - 1) / 2] <= m <= s[|s| / 2]
  {
    var n := |s|;
    if n % 2 == 1 then s[n / 2] else (s[n / 2 - 1] + s[n / 2]) / 2.0
  }

  function DeviationFrom(m: real): real -> real {
    (r: real) => Abs(r - m)
  }

  function SortedDeviations(ratios: seq<real>, m: real): (d: seq<real>)
    ensures |d| == |ratios|
  {
    SortContents(ASCENDING, Map(DeviationFrom(m), ratios));
    Sort(ASCENDING, Map(DeviationFrom(m), ratios))
  }

  function Mad(ratios: seq<real>): real
    requires |ratios| > 0
  {
    MedianOfSorted(SortedDeviations(ratios, MedianOfSorted(ratios)))
  }

  function RawThreshold(median: real, mad: real, k: real): real {
    median + k * (mad * MAD_GAUSSIAN_CONSISTENCY)
  }

  function Min(a: real, b: real): real {
    if a < b then a else b
  }

  function Skip<K>(reason: SkipReason, sampleSize: nat): OutlierResult<K> {
    OutlierResult([], None, None, None, false, sampleSize, 0, Some(reason))
  }

  /** The network norm measured on the kept ratios; no threshold when the spread collapsed. */
  datatype Norm = Norm(median: real, mad: real, threshold: Option<real>, ceilingBinding: bool)

  function Measure(trimmed: seq<real>, k: real, ceiling: real): Norm
    requires |trimmed| > 0
  {
    var median, mad := MedianOfSorted(trimmed), Mad(trimmed);
    if mad < EPSILON then Norm(median, mad, None, false)
    else
      var raw := RawThreshold(median, mad, k);
      Norm(median, mad, Some(Min(raw, ceiling)), raw > ceiling)
  }

  function FlaggedKeys<K>(sorted: seq<(K, real)>, threshold: real): seq<K> {
    Map(KeyOf(), Filter(Above(threshold), sorted))
  }

  /** The verdict on all pairs, sorted by ratio, given the norm of the first `t`. */
  function Report<K>(sorted: seq<(K, real)>, t: nat, norm: Norm): OutlierResult<K> {
    match norm.threshold
    case None =>
      OutlierResult([], Some(norm.median), Some(norm.mad), None, false, |sorted|, t, Some(MadCollapsed))
    case Some(threshold) =>
      OutlierResult(FlaggedKeys(sorted, threshold), Some(norm.median), Some(norm.mad),
                    Some(threshold), norm.ceilingBinding, |sorted|, t, None)
  }

  /** The detector as a function of the samples in iteration order. */
  function Detect<K>(samples: seq<(K, Extracted)>, config: OutlierConfig, ceiling: real): OutlierResult<K> {
    var pairs := ExtractPairs(samples);
    var n := |pairs|;
    if n == 0 then Skip(NoExtractableRatios, n)
    else if n < config.minSamples then Skip(InsufficientSamples, n)
    else
      var t := TrimmedLen(n, config.trimFraction);
      if t == 0 then Skip(InsufficientSamples, n)
      else
        SortContents(ByRatio(), pairs);
        var sorted := Sort(ByRatio(), pairs);
        Report(sorted, t, Measure(Map(RatioOf(), sorted)[..t], config.k, ceiling))
  }

  // ----- The detector as the source runs it -----

  method DetectOutliers<K>(samples: seq<(K, Extracted)>, config: OutlierConfig, ceiling: real)
    returns (r: OutlierResult<K>)
    ensures r == Detect(samples, config, ceiling)
  {
    var pairs := GatherPairs(samples);
    var sampleSize := |pairs|;
    if sampleSize == 0 {
      return Skip(NoExtractableRatios, sampleSize);
    }
    if sampleSize < config.minSamples {
      return Skip(InsufficientSamples, sampleSize);
    }

    var sorted := SortPairs(pairs);
    SortContents(ByRatio(), pairs);
    var trimmedLen := TrimmedLen(sampleSize, config.trimFraction);
    var trimmed := Map(RatioOf(), sorted)[..trimmedLen];
    if trimmed == [] {
      return Skip(InsufficientSamples, sampleSize);
    }

    var median := MedianOfSorted(trimmed);
    var mad := MeasureSpread(trimmed, median);
    if mad < EPSILON {
      return OutlierResult([], Some(median), Some(mad), None, false, sampleSize, trimmedLen, Some(MadCollapsed));
    }

    var rawThreshold := RawThreshold(median, mad, config.k);
    var threshold := Min(rawThreshold, ceiling);
    var flagged := CollectAbove(sorted, threshold);
    r := OutlierResult(flagged, Some(median), Some(mad), Some(threshold), rawThreshold > ceiling,
                       sampleSize, trimmedLen, None);
  }

  /** Keeps the entries whose extracted ratio is finite. */
  method GatherPairs<K>(samples: seq<(K, Extracted)>) returns (pairs: seq<(K, real)>)
    ensures pairs == ExtractPairs(samples)
  {
    pairs := [];
    for i := 0 to |samples|
      invariant pairs == ExtractPairs(samples[..i])
    {
      assert samples[..i + 1][..i] == samples[..i];
      if samples[i].1.Finite? {
        pairs := pairs + [(samples[i].0, samples[i].1.ratio)];
      }
    }
    assert samples[..|samples|] == samples;
  }

  method SortPairs<K>(pairs: seq<(K, real)>) returns (sorted: seq<(K, real)>)
    ensures sorted == Sort(ByRatio(), pairs)
  {
    var buffer := new (K, real)[|pairs|](i requires 0 <= i < |pairs| => pairs[i]);
    assert buffer[..] == pairs;
    SortInPlace(buffer, ByRatio());
    sorted := buffer[..];
  }

  /** Builds the deviations, sorts them in place and takes their middle. */
  method MeasureSpread(trimmed: seq<real>, median: real) returns (mad: real)
    requires |trimmed| > 0
    ensures mad == MedianOfSorted(SortedDeviations(trimmed, median))
  {
    var deviations := new real[|trimmed|](i requires 0 <= i < |trimmed| => Abs(trimmed[i] - median));
    assert deviations[..] == Map(DeviationFrom(median), trimmed);
    SortInPlace(deviations, ASCENDING);
    mad := MedianOfSorted(deviations[..]);
  }

  /** Walks the whole sorted sample, the trimmed tail included. */
  method CollectAbove<K>(sorted: seq<(K, real)>, threshold: real) returns (flagged: seq<K>)
    ensures flagged == FlaggedKeys(sorted, threshold)
  {
    flagged := [];
    for i := 0 to |sorted|
      invariant flagged == FlaggedKeys(sorted[..i], threshold)
    {
      assert sorted[..i + 1][..i] == sorted[..i];
      if sorted[i].1 > threshold {
        flagged := flagged + [sorted[i].0];
      }
    }
    assert sorted[..|sorted|] == sorted;
  }
}
