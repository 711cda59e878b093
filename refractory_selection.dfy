/** The refractory rule of the detector, on its own: a left-to-right scan
    over [lo, end) that accepts each candidate index unless it comes less than
    refractoryPeriod after the last index accepted so far. */
module RefractorySelection {

  /** Whether the candidate at i is suppressed because it comes less than
      refractoryPeriod after the last index accepted so far. */
  predicate Refractory(accepted: seq<int>, refractoryPeriod: int, i: int)
  {
    accepted != [] && i - accepted[|accepted| - 1] < refractoryPeriod
  }

  /** Reference definition of the scan: the indices of [lo, end) it accepts,
      in the order it accepts them. */
  function Select(candidate: int -> bool, refractoryPeriod: int, lo: int, end: int): seq<int>
    decreases end - lo
  {
    if end <= lo then []
    else
      var accepted := Select(candidate, refractoryPeriod, lo, end - 1);
      if candidate(end - 1) && !Refractory(accepted, refractoryPeriod, end - 1)
      then accepted + [end - 1]
      else accepted
  }

  /** Every accepted index is a candidate of [lo, end). */
  lemma {:induction false} SelectSound(candidate: int -> bool, refractoryPeriod: int, lo: int, end: int)
    ensures forall k :: 0 <= k < |Select(candidate, refractoryPeriod, lo, end)| ==>
      lo <= Select(candidate, refractoryPeriod, lo, end)[k] < end &&
      candidate(Select(candidate, refractoryPeriod, lo, end)[k])
    decreases end - lo
  {
    if end > lo {
      SelectSound(candidate, refractoryPeriod, lo, end - 1);
    }
  }

  /** The accepted indices are strictly increasing, and consecutive ones are
      at least refractoryPeriod apart. */
  lemma {:induction false} SelectOrdered(candidate: int -> bool, refractoryPeriod: int, lo: int, end: int)
    ensures forall a, b :: 0 <= a < b < |Select(candidate, refractoryPeriod, lo, end)| ==>
      Select(candidate, refractoryPeriod, lo, end)[a] < Select(candidate, refractoryPeriod, lo, end)[b]
    ensures forall k :: 0 < k < |Select(candidate, refractoryPeriod, lo, end)| ==>
      Select(candidate, refractoryPeriod, lo, end)[k] - Select(candidate, refractoryPeriod, lo, end)[k - 1]
        >= refractoryPeriod
    decreases end - lo
  {
    if end > lo {
      SelectOrdered(candidate, refractoryPeriod, lo, end - 1);
      SelectSound(candidate, refractoryPeriod, lo, end - 1);
    }
  }

  /** The scan only ever appends: what is accepted up to e1 stays, in order,
      at the front of what is accepted up to any later e2, and whatever follows
      it is at least e1. */
  lemma {:induction false} SelectExtends(candidate: int -> bool, refractoryPeriod: int, lo: int, e1: int, e2: int)
    requires e1 <= e2
    ensures Select(candidate, refractoryPeriod, lo, e1) <= Select(candidate, refractoryPeriod, lo, e2)
    ensures forall k :: |Select(candidate, refractoryPeriod, lo, e1)| <= k < |Select(candidate, refractoryPeriod, lo, e2)| ==>
      Select(candidate, refractoryPeriod, lo, e2)[k] >= e1
    decreases e2 - e1
  {
    if e1 < e2 {
      SelectExtends(candidate, refractoryPeriod, lo, e1, e2 - 1);
    }
  }

  /** The accepted indices of [lo, end) below i are exactly those the scan
      had accepted on reaching i. */
  lemma AcceptedBefore(candidate: int -> bool, refractoryPeriod: int, lo: int, end: int, i: int)
    requires i <= end
    ensures forall q :: q in Select(candidate, refractoryPeriod, lo, end) && q < i <==>
      q in Select(candidate, refractoryPeriod, lo, i)
  {
    SelectSound(candidate, refractoryPeriod, lo, i);
    SelectExtends(candidate, refractoryPeriod, lo, i, end);
    var before := Select(candidate, refractoryPeriod, lo, i);
    var r := Select(candidate, refractoryPeriod, lo, end);
    assert forall k :: 0 <= k < |before| ==> r[k] == before[k];
  }

  /** Greedy first-wins, for one index i of [lo, end): i is accepted exactly
      when it is a candidate outside the refractory period of the last index
      accepted before it. */
  lemma SelectGreedyAt(candidate: int -> bool, refractoryPeriod: int, lo: int, end: int, i: int)
    requires lo <= i < end
    ensures i in Select(candidate, refractoryPeriod, lo, end) <==>
      candidate(i) && !Refractory(Select(candidate, refractoryPeriod, lo, i), refractoryPeriod, i)
  {
    SelectSound(candidate, refractoryPeriod, lo, i);
    AcceptedBefore(candidate, refractoryPeriod, lo, end, i + 1);
    var before := Select(candidate, refractoryPeriod, lo, i);
    assert i !in before;
  }

  /** The same rule stated without "last": i is accepted exactly when it is a
      candidate at least refractoryPeriod after every index accepted before
      it. */
  lemma SelectGreedySpaced(candidate: int -> bool, refractoryPeriod: int, lo: int, end: int, i: int)
    requires lo <= i < end
    ensures i in Select(candidate, refractoryPeriod, lo, end) <==>
      candidate(i) &&
      forall q :: q in Select(candidate, refractoryPeriod, lo, end) && q < i ==> i - q >= refractoryPeriod
  {
    SelectGreedyAt(candidate, refractoryPeriod, lo, end, i);
    AcceptedBefore(candidate, refractoryPeriod, lo, end, i);
    SelectOrdered(candidate, refractoryPeriod, lo, i);
    var before := Select(candidate, refractoryPeriod, lo, i);
    if before != [] {
      var last := before[|before| - 1];
      assert forall q :: q in before ==> q <= last;
      assert last in before;
    }
  }

  /** Greedy first-wins over the whole result: an index is accepted exactly
      when it is a candidate of [lo, end) lying at least refractoryPeriod after
      every accepted index before it. */
  lemma SelectGreedy(candidate: int -> bool, refractoryPeriod: int, lo: int, end: int)
    ensures forall i :: i in Select(candidate, refractoryPeriod, lo, end) <==>
      && lo <= i < end
      && candidate(i)
      && forall q :: q in Select(candidate, refractoryPeriod, lo, end) && q < i ==> i - q >= refractoryPeriod
  {
    SelectSound(candidate, refractoryPeriod, lo, end);
    forall i | lo <= i < end
      ensures i in Select(candidate, refractoryPeriod, lo, end) <==>
        candidate(i) &&
        forall q :: q in Select(candidate, refractoryPeriod, lo, end) && q < i ==> i - q >= refractoryPeriod
    {
      SelectGreedySpaced(candidate, refractoryPeriod, lo, end, i);
    }
  }

  /** With a refractory period of at most 1 nothing is suppressed: every
      candidate of [lo, end) is accepted. */
  lemma SelectAllWhenNoRefractory(candidate: int -> bool, refractoryPeriod: int, lo: int, end: int)
    requires refractoryPeriod <= 1
    ensures forall i :: i in Select(candidate, refractoryPeriod, lo, end) <==> lo <= i < end && candidate(i)
  {
    SelectSound(candidate, refractoryPeriod, lo, end);
    forall i | lo <= i < end && candidate(i)
      ensures i in Select(candidate, refractoryPeriod, lo, end)
    {
      SelectSound(candidate, refractoryPeriod, lo, i);
      SelectGreedyAt(candidate, refractoryPeriod, lo, end, i);
    }
  }
}
