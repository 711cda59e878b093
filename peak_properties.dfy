/** What the detector promises about its result. */
module PeakProperties {
  import opened Sums
  import opened BasicProcessing
  import opened RefractorySelection
  import opened PeakDetection

  /** The local mean divides the window's sum by windowSize, while the window
      holds 2 * (windowSize / 2) + 1 samples: it is the true mean of the window
      scaled by (2 * (windowSize / 2) + 1) / windowSize, which is 1 only for an
      odd windowSize. */
  lemma LocalMeanScale(data: seq<real>, windowSize: int, i: int)
    requires windowSize >= 2 && InInterior(data, windowSize, i)
    ensures LocalMean(data, windowSize, i) * (windowSize as real) ==
      ProcessECGData(LocalWindow(data, windowSize, i)) * ((2 * (windowSize / 2) + 1) as real)
    ensures windowSize % 2 == 1 ==> LocalMean(data, windowSize, i) == ProcessECGData(LocalWindow(data, windowSize, i))
  {
    var w := LocalWindow(data, windowSize, i);
    assert LocalMean(data, windowSize, i) * (windowSize as real) == Sum(w);
    assert ProcessECGData(w) * (|w| as real) == Sum(w);
    if windowSize % 2 == 1 {
      assert |w| == windowSize;
    }
  }

  /** The case windowSize == 1, which DetectPeaksDynamic excludes: the window
      is the sample x alone, its squared deviation is 0, and with a square root
      that maps 0 to 0 the threshold is x itself. The first test of the
      candidate condition, x > threshold, therefore fails at every index, and
      the source returns no peaks without reading a neighbour. */
  lemma WindowOneNeverFires(x: real, multiplier: real, sqrt: real -> real)
    requires sqrt(0.0) == 0.0
    ensures var localMean := Sum([x]) / 1.0;
      !(x > localMean + multiplier * sqrt(SqDev([x], localMean) / 1.0))
  {
    assert [x][..0] == [];
    assert Sum([x]) == x;
    assert SqDev([x], x) == 0.0;
  }

  /** Every returned index lies in the interior [windowSize / 2, |data| -
      windowSize / 2); a recording shorter than 2 * (windowSize / 2) + 1
      samples, the empty one included, yields no peaks. */
  lemma PeaksInInterior(data: seq<real>, windowSize: int, multiplier: real, refractoryPeriod: int,
                        sqrt: real -> real)
    requires windowSize >= 2
    ensures forall k :: 0 <= k < |DetectPeaks(data, windowSize, multiplier, refractoryPeriod, sqrt)| ==>
      windowSize / 2 <= DetectPeaks(data, windowSize, multiplier, refractoryPeriod, sqrt)[k] < |data| - windowSize / 2
    ensures |data| < 2 * (windowSize / 2) + 1 ==> DetectPeaks(data, windowSize, multiplier, refractoryPeriod, sqrt) == []
  {
    SelectSound(CandidateTest(data, windowSize, multiplier, sqrt), refractoryPeriod,
                windowSize / 2, |data| - windowSize / 2);
  }

  /** Every returned index is a strict local maximum above its local
      threshold; hence no two returned indices are adjacent. */
  lemma PeaksAreLocalMaxima(data: seq<real>, windowSize: int, multiplier: real, refractoryPeriod: int,
                            sqrt: real -> real)
    requires windowSize >= 2
    ensures forall p :: p in DetectPeaks(data, windowSize, multiplier, refractoryPeriod, sqrt) ==>
      && InInterior(data, windowSize, p)
      && data[p] > Threshold(data, windowSize, multiplier, sqrt, p)
      && data[p] > data[p - 1]
      && data[p] > data[p + 1]
    ensures forall p :: p in DetectPeaks(data, windowSize, multiplier, refractoryPeriod, sqrt) ==>
      p + 1 !in DetectPeaks(data, windowSize, multiplier, refractoryPeriod, sqrt)
  {
    SelectSound(CandidateTest(data, windowSize, multiplier, sqrt), refractoryPeriod,
                windowSize / 2, |data| - windowSize / 2);
  }

  /** The returned indices are strictly increasing, and consecutive ones are
      at least refractoryPeriod apart. */
  lemma PeaksSpaced(data: seq<real>, windowSize: int, multiplier: real, refractoryPeriod: int,
                    sqrt: real -> real)
    requires windowSize >= 2
    ensures forall a, b :: 0 <= a < b < |DetectPeaks(data, windowSize, multiplier, refractoryPeriod, sqrt)| ==>
      DetectPeaks(data, windowSize, multiplier, refractoryPeriod, sqrt)[a] <
      DetectPeaks(data, windowSize, multiplier, refractoryPeriod, sqrt)[b]
    ensures forall k :: 0 < k < |DetectPeaks(data, windowSize, multiplier, refractoryPeriod, sqrt)| ==>
      DetectPeaks(data, windowSize, multiplier, refractoryPeriod, sqrt)[k] -
      DetectPeaks(data, windowSize, multiplier, refractoryPeriod, sqrt)[k - 1] >= refractoryPeriod
  {
    SelectOrdered(CandidateTest(data, windowSize, multiplier, sqrt), refractoryPeriod,
                  windowSize / 2, |data| - windowSize / 2);
  }

  /** Greedy first-wins on the result: an index is returned exactly when it
      is a candidate lying at least refractoryPeriod after every returned index
      before it. A candidate is dropped only on account of an earlier accepted
      index, and an accepted index is never taken back. */
  lemma PeaksGreedy(data: seq<real>, windowSize: int, multiplier: real, refractoryPeriod: int,
                    sqrt: real -> real)
    requires windowSize >= 2
    ensures forall i :: i in DetectPeaks(data, windowSize, multiplier, refractoryPeriod, sqrt) <==>
      && IsCandidate(data, windowSize, multiplier, sqrt, i)
      && forall q :: q in DetectPeaks(data, windowSize, multiplier, refractoryPeriod, sqrt) && q < i ==>
           i - q >= refractoryPeriod
  {
    SelectGreedy(CandidateTest(data, windowSize, multiplier, sqrt), refractoryPeriod,
                 windowSize / 2, |data| - windowSize / 2);
  }

  /** Of a returned index p and a later candidate q less than
      refractoryPeriod after it, only p is returned. */
  lemma FirstInWindowWins(data: seq<real>, windowSize: int, multiplier: real, refractoryPeriod: int,
                          sqrt: real -> real, p: int, q: int)
    requires windowSize >= 2
    requires p in DetectPeaks(data, windowSize, multiplier, refractoryPeriod, sqrt)
    requires p < q < p + refractoryPeriod
    ensures q !in DetectPeaks(data, windowSize, multiplier, refractoryPeriod, sqrt)
  {
    PeaksGreedy(data, windowSize, multiplier, refractoryPeriod, sqrt);
  }

  /** A refractory period of at most 1 disables suppression: the result holds
      every candidate, in increasing order. */
  lemma NoSuppression(data: seq<real>, windowSize: int, multiplier: real, refractoryPeriod: int,
                      sqrt: real -> real)
    requires windowSize >= 2
    requires refractoryPeriod <= 1
    ensures forall i :: i in DetectPeaks(data, windowSize, multiplier, refractoryPeriod, sqrt) <==>
      IsCandidate(data, windowSize, multiplier, sqrt, i)
  {
    SelectAllWhenNoRefractory(CandidateTest(data, windowSize, multiplier, sqrt), refractoryPeriod,
                              windowSize / 2, |data| - windowSize / 2);
  }

  /** With a non-negative multiplier and a square root that is non-negative on
      non-negative arguments, every returned sample exceeds its local mean. */
  lemma PeaksAboveLocalMean(data: seq<real>, windowSize: int, multiplier: real, refractoryPeriod: int,
                            sqrt: real -> real)
    requires windowSize >= 2
    requires multiplier >= 0.0
    requires forall x :: x >= 0.0 ==> sqrt(x) >= 0.0
    ensures forall p :: p in DetectPeaks(data, windowSize, multiplier, refractoryPeriod, sqrt) ==>
      InInterior(data, windowSize, p) && data[p] > LocalMean(data, windowSize, p)
  {
    PeaksAreLocalMaxima(data, windowSize, multiplier, refractoryPeriod, sqrt);
    forall p | p in DetectPeaks(data, windowSize, multiplier, refractoryPeriod, sqrt)
      ensures data[p] > LocalMean(data, windowSize, p)
    {
      var w := LocalWindow(data, windowSize, p);
      var mean := LocalMean(data, windowSize, p);
      SqDevNonNegative(w, mean);
      var v := SqDev(w, mean) / (windowSize as real);
      assert v >= 0.0;
      assert multiplier * sqrt(v) >= 0.0;
    }
  }
}

/** The detector on a recording with one isolated spike. */
module PeakScenarios {
  import opened Sums
  import opened RefractorySelection
  import opened PeakDetection

  /** [0, 0, 0, 10, 0, 0, 0] with windowSize 4, multiplier 1 and refractory
      period 1: the scan visits 2, 3 and 4 and returns only the spike at 3,
      for any square root that is exact on non-negative arguments. */
  lemma SingleSpike(sqrt: real -> real)
    requires forall x :: x >= 0.0 ==> sqrt(x) >= 0.0 && sqrt(x) * sqrt(x) == x
    ensures DetectPeaks([0.0, 0.0, 0.0, 10.0, 0.0, 0.0, 0.0], 4, 1.0, 1, sqrt) == [3]
  {
    var data := [0.0, 0.0, 0.0, 10.0, 0.0, 0.0, 0.0];
    var w := LocalWindow(data, 4, 3);
    assert w == [0.0, 0.0, 10.0, 0.0, 0.0];
    assert Sum(w) == 10.0 by {
      assert [0.0, 0.0][..1] == [0.0];
      assert [0.0, 0.0, 10.0][..2] == [0.0, 0.0];
      assert [0.0, 0.0, 10.0, 0.0][..3] == [0.0, 0.0, 10.0];
      assert w[..4] == [0.0, 0.0, 10.0, 0.0];
      assert Sum([0.0]) == 0.0;
      assert Sum([0.0, 0.0]) == 0.0;
      assert Sum([0.0, 0.0, 10.0]) == 10.0;
      assert Sum([0.0, 0.0, 10.0, 0.0]) == 10.0;
    }
    var mean := LocalMean(data, 4, 3);
    assert mean == 2.5;
    assert SqDev(w, mean) == 81.25 by {
      assert [0.0, 0.0][..1] == [0.0];
      assert [0.0, 0.0, 10.0][..2] == [0.0, 0.0];
      assert [0.0, 0.0, 10.0, 0.0][..3] == [0.0, 0.0, 10.0];
      assert w[..4] == [0.0, 0.0, 10.0, 0.0];
      assert SqDev([0.0], 2.5) == 6.25;
      assert SqDev([0.0, 0.0], 2.5) == 12.5;
      assert SqDev([0.0, 0.0, 10.0], 2.5) == 68.75;
      assert SqDev([0.0, 0.0, 10.0, 0.0], 2.5) == 75.0;
    }
    var s := sqrt(81.25 / 4.0);
    assert s >= 0.0 && s * s == 81.25 / 4.0;
    assert (s - 7.5) * (s + 7.5) == s * s - 56.25;
    assert s < 7.5;
    assert Threshold(data, 4, 1.0, sqrt, 3) < 10.0;
    var candidate := CandidateTest(data, 4, 1.0, sqrt);
    assert !candidate(2) && candidate(3) && !candidate(4);
    assert Select(candidate, 1, 2, 3) == [];
    assert Select(candidate, 1, 2, 4) == [3];
  }
}
