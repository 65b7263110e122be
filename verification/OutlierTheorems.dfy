/**
 What the outlier detector promises: the breakdown bound, immunity of the threshold
 to the tail it trims, independence of iteration order, equivariance under shifts,
 and the exact meaning of a collapsed spread.
 */
module OutlierTheorems {
  import opened StableSort
  import opened Reals
  import opened Wrappers
  import opened Governance

  // ----- The statistics depend on the ordered ratios alone -----

  /** All usable ratios, ascending. */
  ghost function SortedRatios<K>(samples: seq<(K, Extracted)>): (s: seq<real>)
    ensures |s| == |ExtractPairs(samples)|
  {
    SortContents(ASCENDING, Map(RatioOf(), ExtractPairs(samples)));
    Sort(ASCENDING, Map(RatioOf(), ExtractPairs(samples)))
  }

  ghost function KeptCount<K>(samples: seq<(K, Extracted)>, config: OutlierConfig): nat {
    TrimmedLen(|ExtractPairs(samples)|, config.trimFraction)
  }

  /** The ratios that the norm is computed from. */
  ghost function Trimmed<K>(samples: seq<(K, Extracted)>, config: OutlierConfig): (t: seq<real>)
    ensures |t| == KeptCount(samples, config)
  {
    SortedRatios(samples)[..KeptCount(samples, config)]
  }

  /** The entries that those ratios belong to. */
  ghost function KeptPairs<K>(samples: seq<(K, Extracted)>, config: OutlierConfig): seq<(K, real)> {
    SortContents(ByRatio(), ExtractPairs(samples));
    Sort(ByRatio(), ExtractPairs(samples))[..KeptCount(samples, config)]
  }

  /** Enough samples to compute a median at all. */
  ghost predicate Measurable<K>(samples: seq<(K, Extracted)>, config: OutlierConfig) {
    && |ExtractPairs(samples)| >= config.minSamples
    && KeptCount(samples, config) > 0
  }

  lemma Orders<K(!new)>()
    ensures TotalPreorder(ASCENDING) && Antisymmetric(ASCENDING)
    ensures TotalPreorder(ByRatio<K>())
  {
  }

  lemma RatiosOfSorted<K(!new)>(pairs: seq<(K, real)>)
    ensures Map(RatioOf(), Sort(ByRatio(), pairs)) == Sort(ASCENDING, Map(RatioOf(), pairs))
  {
    SortMap(ByRatio<K>(), ASCENDING, RatioOf<K>(), pairs);
  }

  lemma TrimmedOrdered<K(!new)>(samples: seq<(K, Extracted)>, config: OutlierConfig)
    ensures Ordered(ASCENDING, SortedRatios(samples))
    ensures Ordered(ASCENDING, Trimmed(samples, config))
  {
    Orders<K>();
    SortOrdered(ASCENDING, Map(RatioOf(), ExtractPairs(samples)));
  }

  /** The detector reports the norm of the trimmed ratios, or says why there is none. */
  lemma Statistics<K(!new)>(samples: seq<(K, Extracted)>, config: OutlierConfig, ceiling: real)
    ensures !Measurable(samples, config) ==>
      Detect(samples, config, ceiling) ==
      Skip(if ExtractPairs(samples) == [] then NoExtractableRatios else InsufficientSamples, |ExtractPairs(samples)|)
    ensures Measurable(samples, config) ==>
      Detect(samples, config, ceiling) ==
      Report(Sort(ByRatio(), ExtractPairs(samples)), KeptCount(samples, config),
             Measure(Trimmed(samples, config), config.k, ceiling))
  {
    RatiosOfSorted(ExtractPairs(samples));
  }

  /** Samples with the same kept ratios get the same report, flags aside. */
  lemma SameTrimSameStatistics<K(!new)>(samples: seq<(K, Extracted)>, samples': seq<(K, Extracted)>,
                                        config: OutlierConfig, ceiling: real)
    requires |ExtractPairs(samples)| == |ExtractPairs(samples')|
    requires Trimmed(samples, config) == Trimmed(samples', config)
    ensures var r, r' := Detect(samples, config, ceiling), Detect(samples', config, ceiling);
      r' == r.(flagged := r'.flagged)
  {
    Statistics(samples, config, ceiling);
    Statistics(samples', config, ceiling);
    hide Detect, Measure, FlaggedKeys, TrimmedLen, Trimmed;
    SortContents(ByRatio(), ExtractPairs(samples));
    SortContents(ByRatio(), ExtractPairs(samples'));
  }

  lemma {:induction false} ExtractMember<K>(samples: seq<(K, Extracted)>, k: K, r: real)
    ensures (k, r) in ExtractPairs(samples) <==> (k, Finite(r)) in samples
  {
    if samples == [] {
    } else {
      var last := samples[|samples| - 1];
      ExtractMember(samples[..|samples| - 1], k, r);
      assert samples == samples[..|samples| - 1] + [last];
      assert (k, r) in Usable(last) <==> last == (k, Finite(r));
    }
  }

  lemma KeyInMap<K>(over: seq<(K, real)>, k: K)
    ensures k in Map(KeyOf(), over) <==> exists x :: (k, x) in over
  {
    var keys := Map(KeyOf(), over);
    if k in keys {
      var i :| 0 <= i < |keys| && keys[i] == k;
      var x := over[i].1;
      assert over[i] == (k, x);
      assert (k, x) in over;
    } else {
      forall i | 0 <= i < |over| ensures over[i].0 != k {
        assert keys[i] == over[i].0;
      }
    }
  }

  /** The sample of `k` has a usable ratio above the threshold. */
  ghost predicate RatioAbove<K>(samples: seq<(K, Extracted)>, k: K, threshold: real) {
    exists x :: (k, Finite(x)) in samples && x > threshold
  }

  lemma FlaggedKeysMember<K(!new)>(samples: seq<(K, Extracted)>, threshold: real, k: K)
    ensures k in FlaggedKeys(Sort(ByRatio(), ExtractPairs(samples)), threshold)
       <==> RatioAbove(samples, k, threshold)
  {
    var pairs := ExtractPairs(samples);
    var sorted := Sort(ByRatio(), pairs);
    SortContents(ByRatio(), pairs);
    var over := Filter(Above<K>(threshold), sorted);
    KeyInMap(over, k);
    forall x ensures (k, x) in over <==> (k, Finite(x)) in samples && x > threshold {
      FilterMember(Above<K>(threshold), sorted, (k, x));
      assert (k, x) in sorted <==> (k, x) in multiset(sorted);
      assert (k, x) in pairs <==> (k, x) in multiset(pairs);
      ExtractMember(samples, k, x);
    }
  }

  /** A key is flagged exactly when the pass ran and the key's own ratio is above the threshold. */
  lemma FlaggedExactly<K(!new)>(samples: seq<(K, Extracted)>, config: OutlierConfig, ceiling: real, k: K)
    ensures Detect(samples, config, ceiling).skipReason.None? <==> Detect(samples, config, ceiling).threshold.Some?
    ensures var r := Detect(samples, config, ceiling);
      k in r.flagged <==>
      r.skipReason.None? && RatioAbove(samples, k, r.threshold.value)
  {
    Statistics(samples, config, ceiling);
    var r := Detect(samples, config, ceiling);
    if r.threshold.Some? {
      FlaggedKeysMember(samples, r.threshold.value, k);
    }
  }

  // ----- Breakdown -----

  function Outside(lo: real, hi: real): real -> bool {
    (x: real) => !(lo <= x <= hi)
  }

  function NotIn<K(==)>(honest: set<K>): ((K, real)) -> bool {
    (p: (K, real)) => p.0 !in honest
  }

  /**
   What a ratio is measured against.  In a pass that is not skipped, a ratio is above the
   threshold exactly when it is above the ceiling or exceeds the median by more than `k`
   times 1.4826 times the MAD; the ceiling is reported as binding exactly when it is the
   lower one of the two.
   */
  lemma ThresholdExactly<K(!new)>(samples: seq<(K, Extracted)>, config: OutlierConfig, ceiling: real, x: real)
    ensures var r := Detect(samples, config, ceiling);
      r.skipReason.None? ==>
        && r.threshold.Some? && r.median.Some? && r.mad.Some? && r.mad.value >= EPSILON
        && (x > r.threshold.value <==> x > ceiling || x - r.median.value > config.k * (1.4826 * r.mad.value))
        && (r.ceilingBinding <==> ceiling - r.median.value < config.k * (1.4826 * r.mad.value))
        && (r.ceilingBinding ==> r.threshold.value == ceiling)
  {
    Statistics(samples, config, ceiling);
    hide Detect, Mad, MedianOfSorted, Trimmed, TrimmedLen, FlaggedKeys, Measure, Sort, ExtractPairs;
    if Measurable(samples, config) {
      NormThreshold(Trimmed(samples, config), config.k, ceiling, x);
    }
  }

  lemma NormThreshold(t: seq<real>, k: real, ceiling: real, x: real)
    requires |t| > 0
    ensures var norm := Measure(t, k, ceiling);
      norm.threshold.Some? ==>
        && norm.mad >= EPSILON
        && (x > norm.threshold.value <==> x > ceiling || x - norm.median > k * (1.4826 * norm.mad))
        && (norm.ceilingBinding <==> ceiling - norm.median < k * (1.4826 * norm.mad))
        && (norm.ceilingBinding ==> norm.threshold.value == ceiling)
  {
    hide Mad, MedianOfSorted;
    var mad := Mad(t);
    assert mad * MAD_GAUSSIAN_CONSISTENCY == 1.4826 * mad;
  }

  /** So a key is flagged exactly when the pass ran and its own ratio is that far out. */
  lemma FlaggedByDistance<K(!new)>(samples: seq<(K, Extracted)>, config: OutlierConfig, ceiling: real, k: K)
    ensures var r := Detect(samples, config, ceiling);
      k in r.flagged <==>
        && r.skipReason.None? && r.median.Some? && r.mad.Some?
        && exists x ::
          (k, Finite(x)) in samples && (x > ceiling || x - r.median.value > config.k * (1.4826 * r.mad.value))
  {
    hide Detect;
    FlaggedExactly(samples, config, ceiling, k);
    ThresholdExactly(samples, config, ceiling, 0.0);
    var r := Detect(samples, config, ceiling);
    if r.skipReason.None? {
      forall x | (k, Finite(x)) in samples
        ensures x > r.threshold.value <==>
          x > ceiling || x - r.median.value > config.k * (1.4826 * r.mad.value)
      {
        ThresholdExactly(samples, config, ceiling, x);
      }
    }
  }

  /** While fewer than half of the values stray, the middle ones do not. */
  lemma MiddleWithin(s: seq<real>, lo: real, hi: real)
    requires Ordered(ASCENDING, s)
    requires 2 * Count(Outside(lo, hi), s) < |s|
    ensures lo <= s[(|s| - 1) / 2] && s[|s| / 2] <= hi
  {
    var h, j := |s| / 2, (|s| - 1) / 2;
    if s[h] > hi {
      assert forall i :: h < i < |s| ==> ASCENDING(s[h], s[i]);
      SuffixCount(Outside(lo, hi), s, h);
      assert false;
    }
    if s[j] < lo {
      assert forall i :: 0 <= i < j ==> ASCENDING(s[i], s[j]);
      PrefixCount(Outside(lo, hi), s, j + 1);
      assert false;
    }
  }

  lemma MedianWithin(s: seq<real>, lo: real, hi: real)
    requires Ordered(ASCENDING, s)
    requires 2 * Count(Outside(lo, hi), s) < |s|
    ensures lo <= MedianOfSorted(s) <= hi
  {
    MiddleWithin(s, lo, hi);
  }

  lemma StrayCount<K(!new)>(samples: seq<(K, Extracted)>, config: OutlierConfig, honest: set<K>, lo: real, hi: real)
    requires forall k, x :: (k, Finite(x)) in samples && k in honest ==> lo <= x <= hi
    ensures Count(Outside(lo, hi), Trimmed(samples, config)) <= Count(NotIn(honest), KeptPairs(samples, config))
  {
    var kept := KeptPairs(samples, config);
    var p := Outside(lo, hi);
    RatiosOfSorted(ExtractPairs(samples));
    assert Trimmed(samples, config) == Map(RatioOf(), kept);
    forall i | 0 <= i < |kept| && p(RatioOf<K>()(kept[i])) ensures NotIn(honest)(kept[i]) {
      KeptIsSample(samples, config, i);
    }
    hide KeptPairs, Count;
    CountMap(RatioOf<K>(), NotIn(honest), p, kept);
  }

  lemma KeptIsSample<K(!new)>(samples: seq<(K, Extracted)>, config: OutlierConfig, i: nat)
    requires i < |KeptPairs(samples, config)|
    ensures var p := KeptPairs(samples, config)[i]; (p.0, Finite(p.1)) in samples
  {
    var sorted := Sort(ByRatio(), ExtractPairs(samples));
    SortContents(ByRatio(), ExtractPairs(samples));
    assert sorted[i] in multiset(sorted);
    ExtractMember(samples, sorted[i].0, sorted[i].1);
  }

  /** The deviations from a point within the range stray no more often than the values do. */
  lemma DeviationsWithin(t: seq<real>, m: real, lo: real, hi: real)
    requires lo <= m <= hi
    ensures Ordered(ASCENDING, SortedDeviations(t, m))
    ensures Count(Outside(0.0, hi - lo), SortedDeviations(t, m)) <= Count(Outside(lo, hi), t)
  {
    var f, p, q := DeviationFrom(m), Outside(lo, hi), Outside(0.0, hi - lo);
    forall i | 0 <= i < |t| && q(f(t[i])) ensures p(t[i]) {
      assert f(t[i]) == Abs(t[i] - m);
    }
    CountMap(f, p, q, t);
    SortCount(ASCENDING, Map(DeviationFrom(m), t), Outside(0.0, hi - lo));
    Orders<int>();
    SortOrdered(ASCENDING, Map(DeviationFrom(m), t));
  }

  lemma MadWithin(t: seq<real>, lo: real, hi: real)
    requires Ordered(ASCENDING, t)
    requires 2 * Count(Outside(lo, hi), t) < |t|
    ensures 0.0 <= Mad(t) <= hi - lo
  {
    hide MedianOfSorted, SortedDeviations;
    MedianWithin(t, lo, hi);
    DeviationsWithin(t, MedianOfSorted(t), lo, hi);
    MedianWithin(SortedDeviations(t, MedianOfSorted(t)), 0.0, hi - lo);
  }

  lemma RawThresholdBound(median: real, mad: real, k: real, lo: real, hi: real)
    requires lo <= median <= hi && 0.0 <= mad <= hi - lo && k >= 0.0
    ensures median <= RawThreshold(median, mad, k) <= RawThreshold(hi, hi - lo, k)
  {
    ScaleBound(mad * MAD_GAUSSIAN_CONSISTENCY, (hi - lo) * MAD_GAUSSIAN_CONSISTENCY, k);
  }

  lemma ScaleBound(a: real, b: real, k: real)
    requires 0.0 <= a <= b && k >= 0.0
    ensures 0.0 <= k * a <= k * b
  {
  }

  /** The norm of kept ratios that mostly lie in `[lo, hi]`. */
  lemma NormWithin(t: seq<real>, k: real, ceiling: real, lo: real, hi: real)
    requires Ordered(ASCENDING, t) && k >= 0.0
    requires 2 * Count(Outside(lo, hi), t) < |t|
    ensures var norm := Measure(t, k, ceiling);
      && lo <= norm.median <= hi
      && 0.0 <= norm.mad <= hi - lo
      && (norm.threshold.Some? ==> norm.threshold.value <= RawThreshold(hi, hi - lo, k))
  {
    hide MedianOfSorted, Mad;
    MedianWithin(t, lo, hi);
    MadWithin(t, lo, hi);
    RawThresholdBound(MedianOfSorted(t), Mad(t), k, lo, hi);
    hide RawThreshold;
  }

  lemma RawThresholdIs(median: real, mad: real, k: real)
    ensures RawThreshold(median, mad, k) == median + k * (mad * 1.4826)
  {
  }

  /**
   The breakdown bound.  As long as fewer than half of the kept samples belong to
   keys outside `honest`, those keys can neither move the median out of the honest
   range nor inflate the spread beyond its width; every ratio above the resulting
   bound is flagged in any pass that is not skipped.
   */
  lemma Breakdown<K(!new)>(samples: seq<(K, Extracted)>, config: OutlierConfig, ceiling: real,
                           honest: set<K>, lo: real, hi: real)
    requires forall k, x :: (k, Finite(x)) in samples && k in honest ==> lo <= x <= hi
    requires 2 * Count(NotIn(honest), KeptPairs(samples, config)) < KeptCount(samples, config)
    requires Measurable(samples, config) && config.k >= 0.0
    ensures var r := Detect(samples, config, ceiling);
      && r.median.Some? && lo <= r.median.value <= hi
      && r.mad.Some? && 0.0 <= r.mad.value <= hi - lo
      && (r.skipReason.None? ==>
            var bound := hi + config.k * ((hi - lo) * 1.4826);
            && r.threshold.value <= bound
            && forall k, x :: (k, Finite(x)) in samples && x > bound ==> k in r.flagged)
  {
    hide Detect, KeptPairs, Count, Measurable, KeptCount, RawThreshold;
    var r := Detect(samples, config, ceiling);
    BreakdownNorm(samples, config, ceiling, honest, lo, hi);
    RawThresholdIs(hi, hi - lo, config.k);
    if r.skipReason.None? {
      forall k, x | (k, Finite(x)) in samples && x > hi + config.k * ((hi - lo) * 1.4826) ensures k in r.flagged {
        FlaggedExactly(samples, config, ceiling, k);
      }
    }
  }

  lemma BreakdownNorm<K(!new)>(samples: seq<(K, Extracted)>, config: OutlierConfig, ceiling: real,
                               honest: set<K>, lo: real, hi: real)
    requires forall k, x :: (k, Finite(x)) in samples && k in honest ==> lo <= x <= hi
    requires 2 * Count(NotIn(honest), KeptPairs(samples, config)) < KeptCount(samples, config)
    requires Measurable(samples, config) && config.k >= 0.0
    ensures var r := Detect(samples, config, ceiling);
      && r.median.Some? && lo <= r.median.value <= hi
      && r.mad.Some? && 0.0 <= r.mad.value <= hi - lo
      && (r.skipReason.None? ==> r.threshold.Some? && r.threshold.value <= RawThreshold(hi, hi - lo, config.k))
  {
    hide Detect, Measure, TrimmedLen, Trimmed, KeptPairs, FlaggedKeys, Count, ExtractPairs, Sort, RawThreshold;
    Statistics(samples, config, ceiling);
    StrayCount(samples, config, honest, lo, hi);
    TrimmedOrdered(samples, config);
    NormWithin(Trimmed(samples, config), config.k, ceiling, lo, hi);
  }

  /**
   The bound on the contamination cannot be relaxed, whatever part of the `n` samples
   the configuration trims: with exactly half of the kept ones outside `honest`, the
   median can be put above any `target`.
   */
  lemma BreakdownIsSharp(n: nat, m: nat, hi: real, target: real, config: OutlierConfig, ceiling: real)
    returns (samples: seq<(nat, Extracted)>, honest: set<nat>)
    requires m > 0 && TrimmedLen(n, config.trimFraction) == 2 * m && config.minSamples <= n
    ensures |samples| == n
    ensures forall k, x :: (k, Finite(x)) in samples && k in honest ==> x == hi
    ensures 2 * Count(NotIn(honest), KeptPairs(samples, config)) == KeptCount(samples, config) == 2 * m
    ensures Detect(samples, config, ceiling).median.Some?
    ensures Detect(samples, config, ceiling).median.value > target
  {
    var big := if target > hi then 2.0 * target - hi + 1.0 else hi + 1.0;
    samples, honest := TwoLevels(n, m, hi, big), FirstKeys(m);
    TwoLevelsKept(n, m, hi, big, config);
    hide TwoLevels, Trimmed, KeptPairs, TrimmedLen, ExtractPairs;
    OnlyTheFirstHalf(KeptPairs(samples, config), honest, m);
    hide Count;
    MedianOfHalves(Trimmed(samples, config), m, hi, big);
    Statistics(samples, config, ceiling);
    TwoLevelsHonest(n, m, hi, big);
  }

  /** `n` numbered samples, the first `m` at `low` and the others at `high`. */
  function TwoLevels(n: nat, m: nat, low: real, high: real): seq<(nat, Extracted)> {
    seq(n, (i: nat) => (i, Finite(if i < m then low else high)))
  }

  lemma TwoLevelsHonest(n: nat, m: nat, low: real, high: real)
    ensures |TwoLevels(n, m, low, high)| == n
    ensures forall k, x :: (k, Finite(x)) in TwoLevels(n, m, low, high) && k in FirstKeys(m) ==> x == low
  {
  }

  lemma TwoLevelPairs(n: nat, m: nat, low: real, high: real)
    ensures ExtractPairs(TwoLevels(n, m, low, high)) == seq(n, (i: nat) => (i, if i < m then low else high))
  {
    var ratio := (i: nat) => if i < m then low else high;
    ExtractNumbered(n, ratio);
    assert TwoLevels(n, m, low, high) == seq(n, (i: nat) => (i, Finite(ratio(i))));
  }

  /** They are already sorted, so the kept ones are the first ones. */
  lemma TwoLevelsKept(n: nat, m: nat, low: real, high: real, config: OutlierConfig)
    requires low <= high
    ensures var samples, t := TwoLevels(n, m, low, high), TrimmedLen(n, config.trimFraction);
      && |ExtractPairs(samples)| == n && KeptCount(samples, config) == t
      && |KeptPairs(samples, config)| == |Trimmed(samples, config)| == t
      && (forall i :: 0 <= i < t ==> KeptPairs(samples, config)[i].0 == i)
      && forall i :: 0 <= i < t ==> Trimmed(samples, config)[i] == if i < m then low else high
  {
    var samples := TwoLevels(n, m, low, high);
    TwoLevelPairs(n, m, low, high);
    var pairs := ExtractPairs(samples);
    hide TwoLevels, ExtractPairs, TrimmedLen;
    OrderedSortsToItself(pairs);
    RatiosOfSorted(pairs);
    hide Sort;
  }

  function FirstKeys(m: nat): (keys: set<nat>)
    ensures forall i: nat :: i in keys <==> i < m
  {
    if m == 0 then {} else FirstKeys(m - 1) + {m - 1}
  }

  lemma OrderedSortsToItself(s: seq<(nat, real)>)
    requires Ordered(ByRatio(), s)
    ensures Sort(ByRatio(), s) == s
  {
    Orders<nat>();
    StableSortUnique(ByRatio(), s, s);
  }

  lemma MedianOfHalves(s: seq<real>, m: nat, low: real, high: real)
    requires m > 0 && |s| == 2 * m
    requires forall i :: 0 <= i < 2 * m ==> s[i] == if i < m then low else high
    ensures MedianOfSorted(s) == (low + high) / 2.0
  {
  }

  lemma OnlyTheFirstHalf(pairs: seq<(nat, real)>, honest: set<nat>, m: nat)
    requires |pairs| == 2 * m
    requires forall i :: 0 <= i < 2 * m ==> (pairs[i].0 in honest <==> i < m)
    ensures Count(NotIn(honest), pairs) == m
  {
    CountSplit(NotIn(honest), pairs, m);
    CountNone(NotIn(honest), pairs[..m]);
    CountAll(NotIn(honest), pairs[m..]);
  }

  lemma {:induction false} ExtractNumbered(n: nat, ratio: nat -> real)
    ensures ExtractPairs(seq(n, (i: nat) => (i, Finite(ratio(i))))) == seq(n, (i: nat) => (i, ratio(i)))
  {
    var s := seq(n, (i: nat) => (i, Finite(ratio(i))));
    if n == 0 {
    } else {
      ExtractNumbered(n - 1, ratio);
      assert s[..n - 1] == seq(n - 1, (i: nat) => (i, Finite(ratio(i))));
      assert s[n - 1] == (n - 1, Finite(ratio(n - 1)));
    }
  }

  // ----- The trimmed tail has no say in the threshold -----

  ghost predicate DistinctKeys<K>(samples: seq<(K, Extracted)>) {
    forall i, j :: 0 <= i < j < |samples| ==> samples[i].0 != samples[j].0
  }

  /** The keys that the sort puts past the trim. */
  ghost function TailKeys<K>(samples: seq<(K, Extracted)>, config: OutlierConfig): set<K> {
    var pairs := ExtractPairs(samples);
    SortContents(ByRatio(), pairs);
    set p | p in Sort(ByRatio(), pairs)[KeptCount(samples, config)..] :: p.0
  }

  function RaiseOne<K>(raised: map<K, real>): ((K, real)) -> (K, real) {
    (p: (K, real)) => if p.0 in raised then (p.0, raised[p.0]) else p
  }

  /** The samples after the keys of `raised` report those ratios instead. */
  function Raise<K>(samples: seq<(K, Extracted)>, raised: map<K, real>): seq<(K, Extracted)> {
    seq(|samples|, i requires 0 <= i < |samples| =>
      var (k, e) := samples[i];
      (k, if e.Finite? && k in raised then Finite(raised[k]) else e))
  }

  lemma {:induction false} ExtractRaised<K>(samples: seq<(K, Extracted)>, raised: map<K, real>)
    ensures ExtractPairs(Raise(samples, raised)) == Map(RaiseOne(raised), ExtractPairs(samples))
  {
    if samples == [] {
    } else {
      var front := samples[..|samples| - 1];
      ExtractRaised(front, raised);
      assert Raise(samples, raised)[..|samples| - 1] == Raise(front, raised);
    }
  }

  lemma {:induction false} ExtractKeys<K>(samples: seq<(K, Extracted)>, i: nat, j: nat)
    requires DistinctKeys(samples) && i < j < |ExtractPairs(samples)|
    ensures ExtractPairs(samples)[i].0 != ExtractPairs(samples)[j].0
  {
    var front := samples[..|samples| - 1];
    var rest := ExtractPairs(front);
    if j < |rest| {
      ExtractKeys(front, i, j);
    } else {
      ExtractMember(front, rest[i].0, rest[i].1);
      assert (rest[i].0, Finite(rest[i].1)) in front;
    }
  }

  /** In a map each usable key has one ratio, so no key is both kept and trimmed. */
  lemma KeptKeysNotInTail<K(!new)>(samples: seq<(K, Extracted)>, config: OutlierConfig, i: nat)
    requires DistinctKeys(samples) && i < KeptCount(samples, config)
    ensures |Sort(ByRatio(), ExtractPairs(samples))| == |ExtractPairs(samples)|
    ensures Sort(ByRatio(), ExtractPairs(samples))[i].0 !in TailKeys(samples, config)
  {
    var pairs := ExtractPairs(samples);
    var s := Sort(ByRatio(), pairs);
    var t := KeptCount(samples, config);
    SortContents(ByRatio(), pairs);
    var k := s[i].0;
    if k in TailKeys(samples, config) {
      var p :| p in s[t..] && p.0 == k;
      var j :| 0 <= j < |s[t..]| && s[t..][j] == p;
      var hasKey := (q: (K, real)) => q.0 == k;
      SortCount(ByRatio(), pairs, hasKey);
      TwoSatisfy(hasKey, s, i, t + j);
      var u, v := TwoIndices(hasKey, pairs);
      ExtractKeys(samples, u, v);
      assert false;
    }
  }

  lemma TwoSatisfy<T>(p: T -> bool, s: seq<T>, i: nat, j: nat)
    requires i < j < |s| && p(s[i]) && p(s[j])
    ensures Count(p, s) >= 2
  {
    CountSplit(p, s, j);
    CountSplit(p, s[..j], i);
    CountSplit(p, s[i..j], 1);
    CountSplit(p, s[j..], 1);
    assert s[..j][i..] == s[i..j];
    assert s[i..j][..1] == [s[i]] && s[j..][..1] == [s[j]];
    CountAll(p, [s[i]]);
    CountAll(p, [s[j]]);
  }

  lemma {:induction false} TwoIndices<T>(p: T -> bool, s: seq<T>) returns (i: nat, j: nat)
    requires Count(p, s) >= 2
    ensures i < j < |s| && p(s[i]) && p(s[j])
  {
    var front := s[..|s| - 1];
    if p(s[|s| - 1]) {
      j := |s| - 1;
      i := OneIndex(p, front);
    } else {
      i, j := TwoIndices(p, front);
    }
  }

  lemma {:induction false} OneIndex<T>(p: T -> bool, s: seq<T>) returns (i: nat)
    requires Count(p, s) >= 1
    ensures i < |s| && p(s[i])
  {
    if p(s[|s| - 1]) { i := |s| - 1; } else { i := OneIndex(p, s[..|s| - 1]); }
  }

  ghost predicate RaisesTailOnly<K(!new)>(samples: seq<(K, Extracted)>, config: OutlierConfig, raised: map<K, real>) {
    && raised.Keys <= TailKeys(samples, config)
    && forall k, x :: (k, Finite(x)) in samples && k in raised ==> raised[k] >= x
  }

  lemma RaisedTrimUnchanged<K(!new)>(samples: seq<(K, Extracted)>, config: OutlierConfig, raised: map<K, real>)
    requires DistinctKeys(samples) && RaisesTailOnly(samples, config, raised)
    ensures |ExtractPairs(Raise(samples, raised))| == |ExtractPairs(samples)|
    ensures Trimmed(Raise(samples, raised), config) == Trimmed(samples, config)
  {
    RaisedRatios(samples, raised);
    RaisedTail(samples, config, raised);
    RatiosOfSorted(ExtractPairs(samples));
    TrimmedOrdered(samples, config);
    var s := Sort(ByRatio(), ExtractPairs(samples));
    var after := Map(RatioOf(), Map(RaiseOne(raised), s));
    assert forall i :: 0 <= i < |s| ==> SortedRatios(samples)[i] == s[i].1;
    hide Sort, ExtractPairs, RaiseOne, TrimmedLen, Map, SortedRatios;
    PrefixStays(SortedRatios(samples), after, KeptCount(samples, config));
  }

  /** Sorting changes nothing in front of position `t` if nothing behind it became smaller. */
  lemma PrefixStays(s: seq<real>, after: seq<real>, t: nat)
    requires Ordered(ASCENDING, s) && |after| == |s| && t <= |s|
    requires forall i :: 0 <= i < t ==> after[i] == s[i]
    requires forall i, x :: 0 <= i < t && x in after[t..] ==> s[i] <= x
    ensures |Sort(ASCENDING, after)| == |s|
    ensures Sort(ASCENDING, after)[..t] == s[..t]
  {
    assert after == s[..t] + after[t..];
    SortContents(ASCENDING, after);
    hide Sort;
    SortKeepsPrefix(s[..t], after[t..]);
  }

  lemma RaisedRatios<K(!new)>(samples: seq<(K, Extracted)>, raised: map<K, real>)
    ensures var s := Sort(ByRatio(), ExtractPairs(samples));
      && |ExtractPairs(Raise(samples, raised))| == |s| == |ExtractPairs(samples)|
      && SortedRatios(Raise(samples, raised)) == Sort(ASCENDING, Map(RatioOf(), Map(RaiseOne(raised), s)))
  {
    var pairs := ExtractPairs(samples);
    var s := Sort(ByRatio(), pairs);
    var f := RaiseOne(raised);
    SortContents(ByRatio(), pairs);
    ExtractRaised(samples, raised);
    MapRearranged(f, pairs, s);
    MapRearranged(RatioOf<K>(), Map(f, pairs), Map(f, s));
    SortRearranged(ASCENDING, Map(RatioOf(), Map(f, pairs)), Map(RatioOf(), Map(f, s)));
  }

  /** Raising trimmed keys leaves the kept ratios alone and no trimmed ratio below them. */
  lemma RaisedTail<K(!new)>(samples: seq<(K, Extracted)>, config: OutlierConfig, raised: map<K, real>)
    requires DistinctKeys(samples) && RaisesTailOnly(samples, config, raised)
    ensures var s, t := Sort(ByRatio(), ExtractPairs(samples)), KeptCount(samples, config);
      var after := Map(RatioOf(), Map(RaiseOne(raised), s));
      && t <= |s| == |after|
      && (forall i :: 0 <= i < t ==> after[i] == s[i].1)
      && (forall i, x :: 0 <= i < t && x in after[t..] ==> s[i].1 <= x)
  {
    var pairs := ExtractPairs(samples);
    var s, t := Sort(ByRatio(), pairs), KeptCount(samples, config);
    var after := Map(RatioOf(), Map(RaiseOne(raised), s));
    hide TrimmedLen;
    SortContents(ByRatio(), pairs);
    forall i | 0 <= i < t ensures after[i] == s[i].1 { KeptKeysNotInTail(samples, config, i); }
    Orders<K>();
    SortOrdered(ByRatio(), pairs);
    forall i, j | 0 <= i < t <= j < |s| ensures s[i].1 <= after[j] {
      assert s[j] in multiset(s) && s[j] in multiset(pairs);
      ExtractMember(samples, s[j].0, s[j].1);
      assert ByRatio<K>()(s[i], s[j]);
    }
  }

  /** Sorting leaves an ordered prefix alone when nothing behind it is smaller. */
  lemma SortKeepsPrefix(kept: seq<real>, tail: seq<real>)
    requires Ordered(ASCENDING, kept)
    requires forall i, x :: 0 <= i < |kept| && x in tail ==> kept[i] <= x
    ensures Sort(ASCENDING, kept + tail) == kept + Sort(ASCENDING, tail)
  {
    var rest := Sort(ASCENDING, tail);
    Orders<int>();
    SortOrdered(ASCENDING, tail);
    SortContents(ASCENDING, tail);
    forall j | 0 <= j < |rest| ensures rest[j] in tail { assert rest[j] in multiset(rest); }
    SortOrdered(ASCENDING, kept + tail);
    SortContents(ASCENDING, kept + tail);
    OrderedUnique(ASCENDING, Sort(ASCENDING, kept + tail), kept + rest);
  }

  /**
   An outlier cannot raise its own bar.  Whatever larger ratios the trimmed keys
   report, every statistic, the threshold and the skip reason stay what they were,
   and no key that was flagged escapes.
   */
  lemma OutlierCannotRaiseItsBar<K(!new)>(samples: seq<(K, Extracted)>, config: OutlierConfig, ceiling: real,
                                          raised: map<K, real>)
    requires DistinctKeys(samples) && RaisesTailOnly(samples, config, raised)
    ensures var r, r' := Detect(samples, config, ceiling), Detect(Raise(samples, raised), config, ceiling);
      && r' == r.(flagged := r'.flagged)
      && forall k :: k in r.flagged ==> k in r'.flagged
    ensures forall k :: k !in raised ==>
      (k in Detect(samples, config, ceiling).flagged <==> k in Detect(Raise(samples, raised), config, ceiling).flagged)
  {
    var samples' := Raise(samples, raised);
    var r, r' := Detect(samples, config, ceiling), Detect(samples', config, ceiling);
    hide Detect, TrimmedLen, Trimmed;
    RaisedTrimUnchanged(samples, config, raised);
    SameTrimSameStatistics(samples, samples', config, ceiling);
    forall k ensures k in r.flagged ==> k in r'.flagged
             ensures k !in raised ==> (k in r.flagged <==> k in r'.flagged) {
      FlaggedExactly(samples, config, ceiling, k);
      FlaggedExactly(samples', config, ceiling, k);
      if r.threshold.Some? {
        RaisedAbove(samples, config, raised, r.threshold.value, k);
      }
    }
  }

  lemma RaisedAbove<K(!new)>(samples: seq<(K, Extracted)>, config: OutlierConfig, raised: map<K, real>,
                             threshold: real, k: K)
    requires RaisesTailOnly(samples, config, raised)
    ensures RatioAbove(samples, k, threshold) ==> RatioAbove(Raise(samples, raised), k, threshold)
    ensures k !in raised ==> (RatioAbove(samples, k, threshold) <==> RatioAbove(Raise(samples, raised), k, threshold))
  {
    var samples' := Raise(samples, raised);
    if x :| (k, Finite(x)) in samples && x > threshold {
      var i :| 0 <= i < |samples| && samples[i] == (k, Finite(x));
      var x' := if k in raised then raised[k] else x;
      assert samples'[i] == (k, Finite(x'));
      assert (k, Finite(x')) in samples';
    }
    if x :| k !in raised && (k, Finite(x)) in samples' && x > threshold {
      var i :| 0 <= i < |samples'| && samples'[i] == (k, Finite(x));
      assert samples[i] == (k, Finite(x));
      assert (k, Finite(x)) in samples;
    }
  }

  // ----- Iteration order and origin of the scale do not matter -----

  lemma {:induction false} ExtractAppend<K>(a: seq<(K, Extracted)>, b: seq<(K, Extracted)>)
    ensures ExtractPairs(a + b) == ExtractPairs(a) + ExtractPairs(b)
  {
    if b == [] {
      assert a + b == a;
    } else {
      assert (a + b)[..|a + b| - 1] == a + b[..|b| - 1];
      ExtractAppend(a, b[..|b| - 1]);
    }
  }

  lemma {:induction false} ExtractRearranged<K>(a: seq<(K, Extracted)>, b: seq<(K, Extracted)>)
    requires multiset(a) == multiset(b)
    ensures multiset(ExtractPairs(a)) == multiset(ExtractPairs(b))
    decreases |a|
  {
    assert |a| == |multiset(a)| == |multiset(b)| == |b|;
    if a == [] {
    } else {
      var front, x := a[..|a| - 1], a[|a| - 1];
      assert a == front + [x];
      assert x in multiset(b);
      var i :| 0 <= i < |b| && b[i] == x;
      var before, after := b[..i], b[i + 1..];
      assert b == before + [x] + after;
      MiddleOut(before, [x], after);
      CancelOne(multiset(front), multiset(before + after), x);
      ExtractRearranged(front, before + after);
      ExtractSnoc(front, x);
      ExtractMiddle(before, x, after);
      hide ExtractPairs, Usable;
    }
  }

  lemma ExtractSnoc<K>(b: seq<(K, Extracted)>, x: (K, Extracted))
    ensures ExtractPairs(b + [x]) == ExtractPairs(b) + Usable(x)
  {
    assert (b + [x])[..|b|] == b;
  }

  lemma ExtractMiddle<K>(before: seq<(K, Extracted)>, x: (K, Extracted), after: seq<(K, Extracted)>)
    ensures multiset(ExtractPairs(before + [x] + after)) == multiset(ExtractPairs(before + after)) + multiset(Usable(x))
  {
    hide *;
    ExtractSnoc(before, x);
    ExtractAppend(before + [x], after);
    ExtractAppend(before, after);
    MiddleOut(ExtractPairs(before), Usable(x), ExtractPairs(after));
  }

  lemma MiddleOut<T>(before: seq<T>, middle: seq<T>, after: seq<T>)
    ensures multiset(before + middle + after) == multiset(before + after) + multiset(middle)
  {
  }

  /** The order in which the map yields its entries decides nothing. */
  lemma IterationOrderIrrelevant<K(!new)>(samples: seq<(K, Extracted)>, samples': seq<(K, Extracted)>,
                                          config: OutlierConfig, ceiling: real)
    requires multiset(samples) == multiset(samples')
    ensures var r, r' := Detect(samples, config, ceiling), Detect(samples', config, ceiling);
      && r' == r.(flagged := r'.flagged)
      && forall k :: k in r.flagged <==> k in r'.flagged
  {
    var r, r' := Detect(samples, config, ceiling), Detect(samples', config, ceiling);
    var p, p' := ExtractPairs(samples), ExtractPairs(samples');
    ExtractRearranged(samples, samples');
    assert |p| == |multiset(p)| == |multiset(p')| == |p'|;
    hide Detect, TrimmedLen;
    MapRearranged(RatioOf<K>(), p, p');
    SortRearranged(ASCENDING, Map(RatioOf(), p), Map(RatioOf(), p'));
    SameTrimSameStatistics(samples, samples', config, ceiling);
    forall k ensures k in r.flagged <==> k in r'.flagged {
      FlaggedExactly(samples, config, ceiling, k);
      FlaggedExactly(samples', config, ceiling, k);
      assert forall e :: e in samples <==> e in multiset(samples);
      assert forall e :: e in samples' <==> e in multiset(samples');
    }
  }

  function ShiftPair<K>(c: real): ((K, real)) -> (K, real) {
    (p: (K, real)) => (p.0, p.1 + c)
  }

  function Plus(c: real): real -> real {
    (x: real) => x + c
  }

  function Shift<K>(samples: seq<(K, Extracted)>, c: real): seq<(K, Extracted)> {
    seq(|samples|, i requires 0 <= i < |samples| =>
      var (k, e) := samples[i];
      (k, if e.Finite? then Finite(e.ratio + c) else e))
  }

  lemma {:induction false} ExtractShifted<K>(samples: seq<(K, Extracted)>, c: real)
    ensures ExtractPairs(Shift(samples, c)) == Map(ShiftPair(c), ExtractPairs(samples))
  {
    if samples == [] {
    } else {
      var front := samples[..|samples| - 1];
      ExtractShifted(front, c);
      assert Shift(samples, c)[..|samples| - 1] == Shift(front, c);
    }
  }

  lemma FlaggedAppend<K>(s: seq<(K, real)>, p: (K, real), threshold: real)
    ensures FlaggedKeys(s + [p], threshold) == FlaggedKeys(s, threshold) + (if p.1 > threshold then [p.0] else [])
  {
    assert (s + [p])[..|s|] == s;
  }

  lemma {:induction false} FilterShifted<K>(s: seq<(K, real)>, threshold: real, c: real)
    ensures FlaggedKeys(Map(ShiftPair(c), s), threshold + c) == FlaggedKeys(s, threshold)
  {
    if s == [] {
    } else {
      var front, last := s[..|s| - 1], s[|s| - 1];
      FilterShifted(front, threshold, c);
      var s' := Map(ShiftPair(c), s);
      assert s'[..|s| - 1] == Map(ShiftPair(c), front);
      assert s'[|s| - 1] == (last.0, last.1 + c);
      FlaggedAppend(front, last, threshold);
      FlaggedAppend(s'[..|s| - 1], s'[|s| - 1], threshold + c);
      assert s == front + [last] && s' == s'[..|s| - 1] + [s'[|s| - 1]];
    }
  }

  lemma StatisticsShifted(t: seq<real>, c: real)
    requires |t| > 0
    ensures MedianOfSorted(Map(Plus(c), t)) == MedianOfSorted(t) + c
    ensures Mad(Map(Plus(c), t)) == Mad(t)
  {
    var m := MedianOfSorted(t);
    assert MedianOfSorted(Map(Plus(c), t)) == m + c;
    hide MedianOfSorted, Sort;
    DeviationsShifted(t, m, c);
  }

  lemma DeviationsShifted(t: seq<real>, m: real, c: real)
    ensures Map(DeviationFrom(m + c), Map(Plus(c), t)) == Map(DeviationFrom(m), t)
  {
    var d, d' := Map(DeviationFrom(m), t), Map(DeviationFrom(m + c), Map(Plus(c), t));
    forall i | 0 <= i < |t| ensures d'[i] == d[i] {
      assert (t[i] + c) - (m + c) == t[i] - m;
    }
  }

  ghost function PlusIfSome(o: Option<real>, c: real): Option<real> {
    if o.Some? then Some(o.value + c) else None
  }

  /** Only differences count: moving all ratios and the ceiling moves median and threshold along. */
  lemma ShiftEquivariant<K(!new)>(samples: seq<(K, Extracted)>, config: OutlierConfig, ceiling: real, c: real)
    ensures var r := Detect(samples, config, ceiling);
      Detect(Shift(samples, c), config, ceiling + c)
        == r.(median := PlusIfSome(r.median, c), threshold := PlusIfSome(r.threshold, c))
  {
    hide Detect, Trimmed, TrimmedLen, ExtractPairs, Sort, Shift, FlaggedKeys, Measure, Map;
    var samples' := Shift(samples, c);
    var s, s' := Sort(ByRatio(), ExtractPairs(samples)), Sort(ByRatio(), ExtractPairs(samples'));
    SortShifted(samples, c);
    TrimmedShifted(samples, config, c);
    Statistics(samples, config, ceiling);
    Statistics(samples', config, ceiling + c);
    if Measurable(samples, config) {
      var norm := Measure(Trimmed(samples, config), config.k, ceiling);
      MeasureShifted(Trimmed(samples, config), config.k, ceiling, c);
      if norm.threshold.Some? {
        FilterShifted(s, norm.threshold.value, c);
      }
    }
  }

  lemma SortShifted<K(!new)>(samples: seq<(K, Extracted)>, c: real)
    ensures var s, s' := Sort(ByRatio(), ExtractPairs(samples)), Sort(ByRatio(), ExtractPairs(Shift(samples, c)));
      s' == Map(ShiftPair(c), s) && |s'| == |s|
  {
    ExtractShifted(samples, c);
    SortMap(ByRatio<K>(), ByRatio<K>(), ShiftPair<K>(c), ExtractPairs(samples));
  }

  lemma TrimmedShifted<K(!new)>(samples: seq<(K, Extracted)>, config: OutlierConfig, c: real)
    ensures |ExtractPairs(Shift(samples, c))| == |ExtractPairs(samples)|
    ensures Trimmed(Shift(samples, c), config) == Map(Plus(c), Trimmed(samples, config))
  {
    SortedRatiosShifted(samples, c);
    var s, t := SortedRatios(samples), KeptCount(samples, config);
    hide SortedRatios, TrimmedLen;
    assert Map(Plus(c), s)[..t] == Map(Plus(c), s[..t]);
  }

  lemma SortedRatiosShifted<K(!new)>(samples: seq<(K, Extracted)>, c: real)
    ensures |ExtractPairs(Shift(samples, c))| == |ExtractPairs(samples)|
    ensures SortedRatios(Shift(samples, c)) == Map(Plus(c), SortedRatios(samples))
  {
    var ratios := Map(RatioOf(), ExtractPairs(samples));
    ExtractShifted(samples, c);
    assert Map(RatioOf(), Map(ShiftPair(c), ExtractPairs(samples))) == Map(Plus(c), ratios);
    hide Sort, ExtractPairs, Shift;
    SortMap(ASCENDING, ASCENDING, Plus(c), ratios);
  }

  lemma MeasureShifted(t: seq<real>, k: real, ceiling: real, c: real)
    requires |t| > 0
    ensures var norm := Measure(t, k, ceiling);
      Measure(Map(Plus(c), t), k, ceiling + c)
        == norm.(median := norm.median + c, threshold := PlusIfSome(norm.threshold, c))
  {
    StatisticsShifted(t, c);
    hide MedianOfSorted, Mad;
  }

  // ----- When the spread collapses, and who is always safe -----

  function EqualTo(m: real): real -> bool {
    (x: real) => x == m
  }

  function AtMost(m: real): real -> bool {
    (x: real) => x <= m
  }

  /** In an ascending sequence of non-negative values the zeros are the first ones. */
  lemma ZerosFirst(d: seq<real>, j: nat)
    requires Ordered(ASCENDING, d) && (forall i :: 0 <= i < |d| ==> d[i] >= 0.0) && j < |d|
    ensures d[j] == 0.0 <==> Count(EqualTo(0.0), d) > j
  {
    var p := EqualTo(0.0);
    if d[j] == 0.0 {
      assert forall i :: 0 <= i < j ==> ASCENDING(d[i], d[j]);
      PrefixCount(p, d, j + 1);
    } else {
      assert forall i :: j < i < |d| ==> ASCENDING(d[j], d[i]);
      OnlyPrefixCount(p, d, j);
    }
  }

  /**
   The spread of the kept ratios is zero exactly when a strict majority of them
   equals their median, which is much weaker than all of them being equal.
   */
  lemma MadZeroIffMajority(t: seq<real>)
    requires |t| > 0
    ensures Mad(t) == 0.0 <==> 2 * Count(EqualTo(MedianOfSorted(t)), t) > |t|
  {
    var d := SortedDeviations(t, MedianOfSorted(t));
    DeviationZeros(t, MedianOfSorted(t));
    MedianZero(d);
  }

  lemma DeviationZeros(t: seq<real>, m: real)
    ensures Ordered(ASCENDING, SortedDeviations(t, m))
    ensures forall i :: 0 <= i < |t| ==> SortedDeviations(t, m)[i] >= 0.0
    ensures Count(EqualTo(0.0), SortedDeviations(t, m)) == Count(EqualTo(m), t)
  {
    var devs := Map(DeviationFrom(m), t);
    Orders<int>();
    SortOrdered(ASCENDING, devs);
    assert forall i :: 0 <= i < |devs| ==> devs[i] == Abs(t[i] - m);
    SortedValuesFrom(devs);
    CountSame(DeviationFrom(m), EqualTo(m), EqualTo(0.0), t);
    SortCount(ASCENDING, devs, EqualTo(0.0));
  }

  lemma SortedValuesFrom(s: seq<real>)
    requires forall i :: 0 <= i < |s| ==> s[i] >= 0.0
    ensures forall i :: 0 <= i < |Sort(ASCENDING, s)| ==> Sort(ASCENDING, s)[i] >= 0.0
  {
    var r := Sort(ASCENDING, s);
    SortContents(ASCENDING, s);
    forall i | 0 <= i < |r| ensures r[i] >= 0.0 {
      assert r[i] in multiset(r);
      assert r[i] in s;
    }
  }

  /** The median of non-negative values is zero exactly when most of them are. */
  lemma MedianZero(d: seq<real>)
    requires |d| > 0 && Ordered(ASCENDING, d) && forall i :: 0 <= i < |d| ==> d[i] >= 0.0
    ensures MedianOfSorted(d) == 0.0 <==> 2 * Count(EqualTo(0.0), d) > |d|
  {
    ZerosFirst(d, |d| / 2);
  }

  /** The ratios less than `e` away from `m`. */
  function Near(m: real, e: real): real -> bool {
    (x: real) => Abs(x - m) < e
  }

  function Below(e: real): real -> bool {
    (x: real) => x < e
  }

  /** In an ascending sequence the values below a bound are the first ones. */
  lemma BelowFirst(d: seq<real>, e: real, j: nat)
    requires Ordered(ASCENDING, d) && j < |d|
    ensures d[j] < e <==> Count(Below(e), d) > j
  {
    if d[j] < e {
      assert forall i :: 0 <= i < j ==> ASCENDING(d[i], d[j]);
      PrefixCount(Below(e), d, j + 1);
    } else {
      assert forall i :: j < i < |d| ==> ASCENDING(d[j], d[i]);
      OnlyPrefixCount(Below(e), d, j);
    }
  }

  lemma DeviationsBelow(t: seq<real>, m: real, e: real)
    ensures Count(Below(e), SortedDeviations(t, m)) == Count(Near(m, e), t)
  {
    var devs := Map(DeviationFrom(m), t);
    assert forall i :: 0 <= i < |t| ==> Below(e)(DeviationFrom(m)(t[i])) == Near(m, e)(t[i]);
    CountSame(DeviationFrom(m), Near(m, e), Below(e), t);
    SortCount(ASCENDING, devs, Below(e));
  }

  /** At least half of the values are less than `x` away from `m`, and more than half less than `y`. */
  ghost predicate HalvesNear(t: seq<real>, m: real, x: real, y: real) {
    2 * Count(Near(m, x), t) >= |t| && 2 * Count(Near(m, y), t) > |t|
  }

  /**
   How small the spread is, in terms of the ratios alone: below `e` exactly when two
   bounds that add up to twice `e` cover half and more than half of them.
   */
  lemma MadBelowExactly(t: seq<real>, e: real)
    requires |t| > 0
    ensures Mad(t) < e <==> exists x, y :: x + y == 2.0 * e && HalvesNear(t, MedianOfSorted(t), x, y)
  {
    var m := MedianOfSorted(t);
    var d := SortedDeviations(t, m);
    DeviationZeros(t, m);
    hide SortedDeviations, Count;
    var i, j := (|t| - 1) / 2, |t| / 2;
    assert Mad(t) == (d[i] + d[j]) / 2.0;
    if exists x, y :: x + y == 2.0 * e && HalvesNear(t, m, x, y) {
      var x, y :| x + y == 2.0 * e && HalvesNear(t, m, x, y);
      DeviationsBelow(t, m, x);
      DeviationsBelow(t, m, y);
      BelowFirst(d, x, i);
      BelowFirst(d, y, j);
    }
    if Mad(t) < e {
      var x := d[i] + (e - Mad(t));
      var y := d[j] + (e - Mad(t));
      DeviationsBelow(t, m, x);
      DeviationsBelow(t, m, y);
      BelowFirst(d, x, i);
      BelowFirst(d, y, j);
      assert x + y == 2.0 * e && HalvesNear(t, m, x, y);
    }
  }

  /**
   When the spread silences the pass: exactly when at least half of the kept ratios are
   less than `x` away from their median and more than half less than `y`, for some `x`
   and `y` that add up to twice the machine epsilon.
   */
  lemma CollapsesExactly<K(!new)>(samples: seq<(K, Extracted)>, config: OutlierConfig, ceiling: real)
    ensures Detect(samples, config, ceiling).skipReason == Some(MadCollapsed) <==>
      && Measurable(samples, config)
      && exists x, y ::
        x + y == 2.0 * EPSILON && HalvesNear(Trimmed(samples, config), MedianOfSorted(Trimmed(samples, config)), x, y)
  {
    Statistics(samples, config, ceiling);
    hide Detect, TrimmedLen, HalvesNear, Trimmed, MedianOfSorted, Mad, FlaggedKeys;
    if Measurable(samples, config) {
      MadBelowExactly(Trimmed(samples, config), EPSILON);
    }
  }

  /**
   In terms of majorities: a strict one within epsilon is enough, one within twice
   epsilon is necessary, and for an odd number of kept ratios the first is exact.
   */
  lemma MajorityCollapses<K(!new)>(samples: seq<(K, Extracted)>, config: OutlierConfig, ceiling: real)
    requires Measurable(samples, config)
    ensures var t, collapsed := Trimmed(samples, config),
                                Detect(samples, config, ceiling).skipReason == Some(MadCollapsed);
      var m := MedianOfSorted(t);
      && (2 * Count(Near(m, EPSILON), t) > |t| ==> collapsed)
      && (collapsed ==> 2 * Count(Near(m, 2.0 * EPSILON), t) > |t|)
      && (|t| % 2 == 1 ==> (collapsed <==> 2 * Count(Near(m, EPSILON), t) > |t|))
      && (collapsed ==> Detect(samples, config, ceiling).flagged == [])
  {
    Statistics(samples, config, ceiling);
    hide Detect, TrimmedLen, Trimmed, FlaggedKeys, Mad;
    MadMajority(Trimmed(samples, config), EPSILON);
  }

  lemma MadMajority(t: seq<real>, e: real)
    requires |t| > 0
    ensures var m := MedianOfSorted(t);
      && (2 * Count(Near(m, e), t) > |t| ==> Mad(t) < e)
      && (Mad(t) < e ==> 2 * Count(Near(m, 2.0 * e), t) > |t|)
      && (|t| % 2 == 1 ==> (Mad(t) < e <==> 2 * Count(Near(m, e), t) > |t|))
  {
    hide SortedDeviations, Count, MedianOfSorted, Near, Below;
    var m := MedianOfSorted(t);
    var d := SortedDeviations(t, m);
    DeviationZeros(t, m);
    MedianBelow(d, e);
    DeviationsBelow(t, m, e);
    DeviationsBelow(t, m, 2.0 * e);
    BelowFirst(d, e, |t| / 2);
    BelowFirst(d, 2.0 * e, |t| / 2);
  }

  lemma MedianBelow(d: seq<real>, e: real)
    requires |d| > 0 && Ordered(ASCENDING, d) && forall i :: 0 <= i < |d| ==> d[i] >= 0.0
    ensures d[|d| / 2] < e ==> MedianOfSorted(d) < e
    ensures MedianOfSorted(d) < e ==> d[|d| / 2] < 2.0 * e
    ensures |d| % 2 == 1 ==> (MedianOfSorted(d) < e <==> d[|d| / 2] < e)
  {
    var i, j := (|d| - 1) / 2, |d| / 2;
    assert MedianOfSorted(d) == (d[i] + d[j]) / 2.0;
    assert i == j || ASCENDING(d[i], d[j]);
  }

  lemma NearItself(x: real)
    ensures Near(x, EPSILON)(x)
  {
    assert EPSILON > 0.0;
    assert Abs(x - x) == 0.0;
  }

  /**
   The kept samples need not be identical for that, against the documentation: any
   `low` and `high`, with more than half of the kept ones low and the others high.
   */
  lemma CollapseWithoutEquality(n: nat, m: nat, low: real, high: real, config: OutlierConfig, ceiling: real)
    requires low < high && config.minSamples <= n
    requires m < TrimmedLen(n, config.trimFraction) < 2 * m
    ensures var samples := TwoLevels(n, m, low, high);
      && Detect(samples, config, ceiling).skipReason == Some(MadCollapsed)
      && low in Trimmed(samples, config) && high in Trimmed(samples, config)
  {
    var samples, t := TwoLevels(n, m, low, high), TrimmedLen(n, config.trimFraction);
    TwoLevelsKept(n, m, low, high, config);
    hide TwoLevels, Trimmed, KeptPairs, TrimmedLen, ExtractPairs, Detect;
    var kept := Trimmed(samples, config);
    assert kept[0] == low && kept[m] == high;
    assert MedianOfSorted(kept) == low;
    forall k | 0 <= k < m ensures Near(low, EPSILON)(kept[k]) {
      assert kept[k] == low;
      NearItself(low);
    }
    PrefixCount(Near(low, EPSILON), kept, m);
    MajorityCollapses(samples, config, ceiling);
  }

  /** At least half of the kept ratios are never flagged when the ceiling does not bind. */
  lemma HalfNeverFlagged<K(!new)>(samples: seq<(K, Extracted)>, config: OutlierConfig, ceiling: real)
    requires config.k >= 0.0
    requires Detect(samples, config, ceiling).skipReason.None?
    requires !Detect(samples, config, ceiling).ceilingBinding
    ensures Measurable(samples, config)
    ensures 2 * Count(AtMost(Detect(samples, config, ceiling).threshold.value), Trimmed(samples, config))
              >= KeptCount(samples, config)
  {
    Statistics(samples, config, ceiling);
    hide Detect, TrimmedLen, FlaggedKeys, Measure;
    TrimmedOrdered(samples, config);
    HalfUnderThreshold(Trimmed(samples, config), config.k, ceiling);
  }

  lemma HalfUnderThreshold(t: seq<real>, k: real, ceiling: real)
    requires |t| > 0 && Ordered(ASCENDING, t) && k >= 0.0
    requires Measure(t, k, ceiling).threshold.Some? && !Measure(t, k, ceiling).ceilingBinding
    ensures 2 * Count(AtMost(Measure(t, k, ceiling).threshold.value), t) >= |t|
  {
    hide MedianOfSorted, Mad, RawThreshold;
    RawThresholdAboveMedian(MedianOfSorted(t), Mad(t), k);
    HalfAtMost(t, Measure(t, k, ceiling).threshold.value);
  }

  lemma RawThresholdAboveMedian(median: real, mad: real, k: real)
    requires mad >= 0.0 && k >= 0.0
    ensures RawThreshold(median, mad, k) >= median
  {
    ScaleBound(0.0, mad * MAD_GAUSSIAN_CONSISTENCY, k);
  }

  /** Half of an ascending sequence is at or below whatever its median is at or below. */
  lemma HalfAtMost(t: seq<real>, bound: real)
    requires |t| > 0 && Ordered(ASCENDING, t) && MedianOfSorted(t) <= bound
    ensures 2 * Count(AtMost(bound), t) >= |t|
  {
    var j := (|t| - 1) / 2;
    assert forall i :: 0 <= i < j ==> ASCENDING(t[i], t[j]);
    PrefixCount(AtMost(bound), t, j + 1);
  }
}
