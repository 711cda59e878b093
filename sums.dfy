/** Exact summation over real-valued sample sequences, shared by every stage
    of the pipeline. Reals stand for the source's doubles, so summation order
    and rounding play no part. */
module Sums {

  /** Sum of the samples, accumulated from the front as a left-to-right loop
      (or std::accumulate) does: the last sample is added last. */
  function Sum(s: seq<real>): real
    decreases |s|
  {
    if s == [] then 0.0 else Sum(s[..|s| - 1]) + s[|s| - 1]
  }

  /** Extending a slice by one sample adds that sample to its sum: the step of
      every accumulation loop in the pipeline. */
  lemma SumExtend(data: seq<real>, lo: int, hi: int)
    requires 0 <= lo <= hi < |data|
    ensures Sum(data[lo..hi + 1]) == Sum(data[lo..hi]) + data[hi]
  {
    assert data[lo..hi + 1][..hi - lo] == data[lo..hi];
  }

  /** A sequence whose samples all lie in [lo, hi] has a sum between
      |s| * lo and |s| * hi. */
  lemma {:induction false} SumBounds(s: seq<real>, lo: real, hi: real)
    requires forall k :: 0 <= k < |s| ==> lo <= s[k] <= hi
    ensures (|s| as real) * lo <= Sum(s) <= (|s| as real) * hi
    decreases |s|
  {
    if s != [] {
      var init := s[..|s| - 1];
      assert forall k :: 0 <= k < |init| ==> init[k] == s[k];
      SumBounds(init, lo, hi);
      var m := |init| as real;
      assert (|s| as real) * lo == m * lo + lo;
      assert (|s| as real) * hi == m * hi + hi;
    }
  }
}
