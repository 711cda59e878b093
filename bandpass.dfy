/** bandpassFilter: the naive band-pass approximation, the difference of two
    moving averages taken in the order "low-pass minus high-pass". */
module NaiveBandpass {
  import opened Sums
  import opened MovingAverageFilter

  /** Reference definition: element i is the low-window average minus the
      high-window average at i. */
  function Bandpass(data: seq<real>, windowSizeLow: int, windowSizeHigh: int): (r: seq<real>)
    ensures |r| == |data|
  {
    var lowPassed := MovingAverage(data, windowSizeLow);
    var highPassed := MovingAverage(data, windowSizeHigh);
    seq(|data|, i requires 0 <= i < |data| => lowPassed[i] - highPassed[i])
  }

  /** The filter as the source runs it: both smoothing passes, then a result
      buffer of the input's size filled index by index. */
  method BandpassFilter(data: seq<real>, windowSizeLow: int, windowSizeHigh: int) returns (bandpassed: seq<real>)
    ensures bandpassed == Bandpass(data, windowSizeLow, windowSizeHigh)
  {
    var lowPassed := FilterECGData(data, windowSizeLow);
    var highPassed := FilterECGData(data, windowSizeHigh);
    var buffer := new real[|data|];
    for i := 0 to |data|
      invariant forall k :: 0 <= k < i ==> buffer[k] == lowPassed[k] - highPassed[k]
    {
      buffer[i] := lowPassed[i] - highPassed[i];
    }
    bandpassed := buffer[..];
    assert forall k :: 0 <= k < |data| ==> bandpassed[k] == Bandpass(data, windowSizeLow, windowSizeHigh)[k];
  }

  /** Two passes that smooth alike cancel: equal window sizes, or two window
      sizes of at most 1 (both passes are then the identity), give all zeros. */
  lemma AlikeWindowsCancel(data: seq<real>, windowSizeLow: int, windowSizeHigh: int)
    requires windowSizeLow == windowSizeHigh || (windowSizeLow <= 1 && windowSizeHigh <= 1)
    ensures forall i :: 0 <= i < |data| ==> Bandpass(data, windowSizeLow, windowSizeHigh)[i] == 0.0
  {
    if windowSizeLow != windowSizeHigh {
      if windowSizeLow == 1 { WindowOneIsIdentity(data); }
      if windowSizeHigh == 1 { WindowOneIsIdentity(data); }
    }
  }

  /** The order of subtraction matters: swapping the two window sizes negates
      every output sample. */
  lemma SwappedWindowsNegate(data: seq<real>, windowSizeLow: int, windowSizeHigh: int)
    ensures forall i :: 0 <= i < |data| ==>
      Bandpass(data, windowSizeHigh, windowSizeLow)[i] == -Bandpass(data, windowSizeLow, windowSizeHigh)[i]
  {
  }

  /** The order of subtraction is significant: on [0, 3, 0] the middle
      sample band-passes to -2 with windows (3, 1) and to 2 with windows
      (1, 3). */
  lemma SubtractionOrderMatters()
    ensures Bandpass([0.0, 3.0, 0.0], 3, 1)[1] == -2.0
    ensures Bandpass([0.0, 3.0, 0.0], 1, 3)[1] == 2.0
  {
    var data := [0.0, 3.0, 0.0];
    WindowOneIsIdentity(data);
    var w := Window(data, 1, 1);
    assert w == data;
    assert [0.0, 3.0][..1] == [0.0];
    assert data[..2] == [0.0, 3.0];
    assert Sum(data) == 3.0;
    assert MovingAverage(data, 3)[1] == 1.0;
  }

  /** With a fine window of at most 1 the high-pass leg is the raw recording,
      so the output is the smoothed recording minus the recording. */
  lemma FineWindowLeavesResidual(data: seq<real>, windowSizeLow: int, windowSizeHigh: int)
    requires windowSizeHigh <= 1
    ensures forall i :: 0 <= i < |data| ==>
      Bandpass(data, windowSizeLow, windowSizeHigh)[i] == MovingAverage(data, windowSizeLow)[i] - data[i]
  {
    if windowSizeHigh == 1 { WindowOneIsIdentity(data); }
  }

  /** A recording confined to [lo, hi] gives output confined to
      [lo - hi, hi - lo]; in particular a constant recording gives all zeros. */
  lemma BandpassWithinSpread(data: seq<real>, windowSizeLow: int, windowSizeHigh: int, lo: real, hi: real)
    requires forall k :: 0 <= k < |data| ==> lo <= data[k] <= hi
    ensures forall i :: 0 <= i < |data| ==> lo - hi <= Bandpass(data, windowSizeLow, windowSizeHigh)[i] <= hi - lo
  {
    MovingAverageWithinBounds(data, windowSizeLow, lo, hi);
    MovingAverageWithinBounds(data, windowSizeHigh, lo, hi);
  }

  /** A constant recording has no band content. */
  lemma ConstantHasNoBand(data: seq<real>, windowSizeLow: int, windowSizeHigh: int, c: real)
    requires forall k :: 0 <= k < |data| ==> data[k] == c
    ensures forall i :: 0 <= i < |data| ==> Bandpass(data, windowSizeLow, windowSizeHigh)[i] == 0.0
  {
    BandpassWithinSpread(data, windowSizeLow, windowSizeHigh, c, c);
  }
}
