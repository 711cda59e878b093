/** processECGData: the arithmetic mean of a recording. */
module BasicProcessing {
  import opened Sums

  /** Mean of the samples; an empty recording has mean 0. */
  function ProcessECGData(data: seq<real>): (r: real)
    ensures data == [] ==> r == 0.0
    ensures data != [] ==> r * (|data| as real) == Sum(data)
  {
    if data == [] then 0.0 else Sum(data) / (|data| as real)
  }

  /** The mean of a non-empty recording lies between any lower and upper
      bound of its samples. */
  lemma MeanWithinBounds(data: seq<real>, lo: real, hi: real)
    requires data != []
    requires forall k :: 0 <= k < |data| ==> lo <= data[k] <= hi
    ensures lo <= ProcessECGData(data) <= hi
  {
    var n := |data| as real;
    var r := ProcessECGData(data);
    SumBounds(data, lo, hi);
    assert n * lo <= n * r <= n * hi;
  }

  /** The mean of a constant recording is that constant. */
  lemma MeanOfConstant(data: seq<real>, c: real)
    requires data != []
    requires forall k :: 0 <= k < |data| ==> data[k] == c
    ensures ProcessECGData(data) == c
  {
    MeanWithinBounds(data, c, c);
  }
}
