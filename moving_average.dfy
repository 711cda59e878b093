/** filterECGData: the symmetric moving-average smoothing filter. Element i of
    the output is the mean of the samples of [i - w/2, i + w/2] that lie inside
    the recording, so the window shrinks at both ends instead of padding. */
module MovingAverageFilter {
  import opened Sums
  import opened BasicProcessing

  /** x clamped into [0, n]: where a window bound falls once it is cut to the
      recording. */
  function Clip(x: int, n: nat): (r: nat)
    ensures r <= n
    ensures 0 <= x <= n ==> r == x
  {
    if x < 0 then 0 else if x > n then n else x
  }

  /** The in-bounds part of the window [i - half, i + half] around sample i. It
      always holds sample i itself, so it is never empty. */
  function Window(data: seq<real>, half: nat, i: int): (w: seq<real>)
    requires 0 <= i < |data|
    ensures Clip(i - half, |data|) <= i < Clip(i + half + 1, |data|)
    ensures 1 <= |w| <= 2 * half + 1
    ensures |w| == Clip(i + half + 1, |data|) - Clip(i - half, |data|)
    ensures w[i - Clip(i - half, |data|)] == data[i]
  {
    data[Clip(i - half, |data|)..Clip(i + half + 1, |data|)]
  }

  /** Reference definition of the filter: the identity for an empty recording
      or a non-positive window size, otherwise the mean of each clipped
      window. */
  function MovingAverage(data: seq<real>, windowSize: int): (r: seq<real>)
    ensures |r| == |data|
  {
    if data == [] || windowSize <= 0 then data
    else seq(|data|, i requires 0 <= i < |data| => ProcessECGData(Window(data, windowSize / 2, i)))
  }

  /** The inner loop of the filter for sample i: the sum and the count of the
      samples of [i - halfWindow, i + halfWindow] that lie inside the
      recording, which are exactly the samples of its clipped window. */
  method AccumulateWindow(data: seq<real>, halfWindow: nat, i: int) returns (sum: real, count: int)
    requires 0 <= i < |data|
    ensures count == |Window(data, halfWindow, i)|
    ensures sum == Sum(Window(data, halfWindow, i))
  {
    var dataSize := |data|;
    var start := Clip(i - halfWindow, dataSize);
    sum, count := 0.0, 0;
    var j := i - halfWindow;
    while j <= i + halfWindow
      invariant i - halfWindow <= j <= i + halfWindow + 1
      invariant count == Clip(j, dataSize) - start
      invariant sum == Sum(data[start..Clip(j, dataSize)])
    {
      if 0 <= j < dataSize {
        SumExtend(data, start, j);
        sum := sum + data[j];
        count := count + 1;
      }
      j := j + 1;
    }
  }

  /** The filter as the source runs it: a result buffer of the input's size,
      filled index by index with the mean of each window. */
  method FilterECGData(data: seq<real>, windowSize: int) returns (filteredData: seq<real>)
    ensures filteredData == MovingAverage(data, windowSize)
  {
    if data == [] || windowSize <= 0 {
      return data;
    }
    var halfWindow := windowSize / 2;
    var dataSize := |data|;
    var buffer := new real[dataSize];
    for i := 0 to dataSize
      invariant forall k :: 0 <= k < i ==> buffer[k] == ProcessECGData(Window(data, halfWindow, k))
    {
      var sum, count := AccumulateWindow(data, halfWindow, i);
      buffer[i] := sum / (count as real);
    }
    filteredData := buffer[..];
  }

  /** Each smoothed sample lies between any lower and upper bound of the
      recording: the filter never overshoots its input. */
  lemma MovingAverageWithinBounds(data: seq<real>, windowSize: int, lo: real, hi: real)
    requires forall k :: 0 <= k < |data| ==> lo <= data[k] <= hi
    ensures forall i :: 0 <= i < |data| ==> lo <= MovingAverage(data, windowSize)[i] <= hi
  {
    if data != [] && windowSize > 0 {
      forall i | 0 <= i < |data|
        ensures lo <= MovingAverage(data, windowSize)[i] <= hi
      {
        var w := Window(data, windowSize / 2, i);
        var start := Clip(i - windowSize / 2, |data|);
        assert forall k :: 0 <= k < |w| ==> w[k] == data[start + k];
        MeanWithinBounds(w, lo, hi);
      }
    }
  }

  /** A constant recording is a fixed point of the filter. */
  lemma ConstantIsFixed(data: seq<real>, windowSize: int, c: real)
    requires forall k :: 0 <= k < |data| ==> data[k] == c
    ensures MovingAverage(data, windowSize) == data
  {
    MovingAverageWithinBounds(data, windowSize, c, c);
  }

  /** With window size 1 (half window 0) each window is the sample alone, so the
      filter returns its input. */
  lemma WindowOneIsIdentity(data: seq<real>)
    ensures MovingAverage(data, 1) == data
  {
    if data != [] {
      forall i | 0 <= i < |data|
        ensures MovingAverage(data, 1)[i] == data[i]
      {
        var w := Window(data, 0, i);
        assert w == [data[i]];
        MeanOfConstant(w, data[i]);
      }
    }
  }

  /** A one-sample recording [a] is returned unchanged for every window size:
      its window shrinks to the single sample. */
  lemma SingleSampleIsFixed(a: real, windowSize: int)
    ensures MovingAverage([a], windowSize) == [a]
  {
    ConstantIsFixed([a], windowSize, a);
  }
}
