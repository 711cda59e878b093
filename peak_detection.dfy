/** detectPeaksDynamic: peak detection against a threshold computed from the
    statistics of a window around each index, with refractory suppression.

    The square root the source takes of the local variance is a library call
    whose value no property here depends on; it is the parameter `sqrt`. */
module PeakDetection {
  import opened Sums
  import opened RefractorySelection

  /** Sum of squared deviations of the samples from m, accumulated from the
      front as the source's second inner loop does. */
  function SqDev(s: seq<real>, m: real): real
    decreases |s|
  {
    if s == [] then 0.0 else SqDev(s[..|s| - 1], m) + (s[|s| - 1] - m) * (s[|s| - 1] - m)
  }

  /** Extending a slice by one sample adds that sample's squared deviation:
      the step of the detector's second inner loop. */
  lemma SqDevExtend(data: seq<real>, lo: int, hi: int, m: real)
    requires 0 <= lo <= hi < |data|
    ensures SqDev(data[lo..hi + 1], m) == SqDev(data[lo..hi], m) + (data[hi] - m) * (data[hi] - m)
  {
    assert data[lo..hi + 1][..hi - lo] == data[lo..hi];
  }

  /** A sum of squares is never negative, so the variance handed to the square
      root is never negative. */
  lemma {:induction false} SqDevNonNegative(s: seq<real>, m: real)
    ensures SqDev(s, m) >= 0.0
    decreases |s|
  {
    if s != [] {
      SqDevNonNegative(s[..|s| - 1], m);
      var d := s[|s| - 1] - m;
      if d < 0.0 {
        assert d * d == (-d) * (-d);
      }
    }
  }

  /** The indices the detector visits: [windowSize / 2, |data| - windowSize / 2). */
  predicate InInterior(data: seq<real>, windowSize: int, i: int)
  {
    windowSize / 2 <= i < |data| - windowSize / 2
  }

  /** The full window [i - half, i + half] of an interior index: 2 * half + 1
      samples, none cut off. */
  function LocalWindow(data: seq<real>, windowSize: int, i: int): (w: seq<real>)
    requires windowSize >= 2 && InInterior(data, windowSize, i)
    ensures |w| == 2 * (windowSize / 2) + 1
  {
    data[i - windowSize / 2..i + windowSize / 2 + 1]
  }

  /** The local mean as the source computes it: the window's sum divided by
      windowSize, although the window holds 2 * (windowSize / 2) + 1 samples. */
  function LocalMean(data: seq<real>, windowSize: int, i: int): real
    requires windowSize >= 2 && InInterior(data, windowSize, i)
  {
    Sum(LocalWindow(data, windowSize, i)) / (windowSize as real)
  }

  /** localMean + multiplier * localStd, the local standard deviation being the
      root of the squared deviations divided by windowSize. */
  function Threshold(data: seq<real>, windowSize: int, multiplier: real, sqrt: real -> real, i: int): real
    requires windowSize >= 2 && InInterior(data, windowSize, i)
  {
    var localMean := LocalMean(data, windowSize, i);
    var localStd := sqrt(SqDev(LocalWindow(data, windowSize, i), localMean) / (windowSize as real));
    localMean + multiplier * localStd
  }

  /** An interior index whose sample exceeds its local threshold and both of
      its immediate neighbours. */
  predicate IsCandidate(data: seq<real>, windowSize: int, multiplier: real, sqrt: real -> real, i: int)
    requires windowSize >= 2
  {
    && InInterior(data, windowSize, i)
    && data[i] > Threshold(data, windowSize, multiplier, sqrt, i)
    && data[i] > data[i - 1]
    && data[i] > data[i + 1]
  }

  /** The candidate test of the detector as a predicate on indices, the input
      of the refractory selection. */
  function CandidateTest(data: seq<real>, windowSize: int, multiplier: real, sqrt: real -> real): int -> bool
    requires windowSize >= 2
  {
    i => IsCandidate(data, windowSize, multiplier, sqrt, i)
  }

  /** Reference definition of the detector's result: greedy refractory
      selection of the candidates over the interior. */
  function DetectPeaks(data: seq<real>, windowSize: int, multiplier: real, refractoryPeriod: int,
                       sqrt: real -> real): seq<int>
    requires windowSize >= 2
  {
    Select(CandidateTest(data, windowSize, multiplier, sqrt), refractoryPeriod,
           windowSize / 2, |data| - windowSize / 2)
  }

  /** The detector as the source runs it: for each interior index, one loop
      sums the window, a second sums the squared deviations from the local
      mean, and an accepted index is appended to the result. */
  method DetectPeaksDynamic(data: seq<real>, windowSize: int, multiplier: real, refractoryPeriod: int,
                            sqrt: real -> real) returns (peakIndices: seq<int>)
    requires windowSize >= 2
    ensures peakIndices == DetectPeaks(data, windowSize, multiplier, refractoryPeriod, sqrt)
  {
    peakIndices := [];
    var dataSize := |data|;
    var halfWindow := windowSize / 2;
    ghost var candidate := CandidateTest(data, windowSize, multiplier, sqrt);
    var i := halfWindow;
    while i < dataSize - halfWindow
      invariant halfWindow <= i
      invariant i > dataSize - halfWindow ==> i == halfWindow && peakIndices == []
      invariant i <= dataSize - halfWindow ==> peakIndices == Select(candidate, refractoryPeriod, halfWindow, i)
    {
      var threshold := LocalThreshold(data, windowSize, multiplier, sqrt, i);
      assert candidate(i) == (data[i] > threshold && data[i] > data[i - 1] && data[i] > data[i + 1]);
      ghost var before := peakIndices;
      if data[i] > threshold && data[i] > data[i - 1] && data[i] > data[i + 1] {
        if !(peakIndices != [] && i - peakIndices[|peakIndices| - 1] < refractoryPeriod) {
          peakIndices := peakIndices + [i];
        }
      }
      assert peakIndices == if candidate(i) && !Refractory(before, refractoryPeriod, i) then before + [i] else before;
      i := i + 1;
    }
  }

  /** The threshold of interior index i: the local mean from the first inner
      loop, the local standard deviation from the second. */
  method LocalThreshold(data: seq<real>, windowSize: int, multiplier: real, sqrt: real -> real, i: int)
    returns (threshold: real)
    requires windowSize >= 2 && InInterior(data, windowSize, i)
    ensures threshold == Threshold(data, windowSize, multiplier, sqrt, i)
  {
    var sum := WindowSum(data, windowSize, i);
    var localMean := sum / (windowSize as real);
    var sqSum := WindowSqDev(data, windowSize, i, localMean);
    var localStd := sqrt(sqSum / (windowSize as real));
    threshold := localMean + multiplier * localStd;
  }

  /** First inner loop of the detector: the sum of the window around i. */
  method WindowSum(data: seq<real>, windowSize: int, i: int) returns (sum: real)
    requires windowSize >= 2 && InInterior(data, windowSize, i)
    ensures sum == Sum(LocalWindow(data, windowSize, i))
  {
    var halfWindow := windowSize / 2;
    sum := 0.0;
    var j := i - halfWindow;
    while j <= i + halfWindow
      invariant i - halfWindow <= j <= i + halfWindow + 1
      invariant sum == Sum(data[i - halfWindow..j])
    {
      SumExtend(data, i - halfWindow, j);
      sum := sum + data[j];
      j := j + 1;
    }
  }

  /** Second inner loop of the detector: the squared deviations of the window
      around i from the local mean. */
  method WindowSqDev(data: seq<real>, windowSize: int, i: int, localMean: real) returns (sqSum: real)
    requires windowSize >= 2 && InInterior(data, windowSize, i)
    ensures sqSum == SqDev(LocalWindow(data, windowSize, i), localMean)
  {
    var halfWindow := windowSize / 2;
    sqSum := 0.0;
    var j := i - halfWindow;
    while j <= i + halfWindow
      invariant i - halfWindow <= j <= i + halfWindow + 1
      invariant sqSum == SqDev(data[i - halfWindow..j], localMean)
    {
      SqDevExtend(data, i - halfWindow, j, localMean);
      sqSum := sqSum + (data[j] - localMean) * (data[j] - localMean);
      j := j + 1;
    }
  }
}

