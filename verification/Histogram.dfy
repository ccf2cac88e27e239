/** The histogram's arithmetic: boundaries, bucket lookup, and what a list of writes adds up to. */
module Histogram {
  import opened Wrappers
  import opened Measure

  datatype Write = Add(value: int) | Sub(value: int)

  /** The five atomic cells of one generation, as plain values. */
  datatype State = State(bucketCounts: seq<int>, sum: int, min: int, max: int, count: int)

  datatype Snapshot = Snapshot(
    boundaries: seq<int>, bucketCounts: seq<int>, count: int, sum: int, min: Option<int>, max: Option<int>)

  // ---------------------------------------------------------------- boundaries

  /** The constructor's test: non-empty, and each neighbour pair strictly increasing. */
  predicate CheckedBoundaries(b: seq<int>) {
    |b| > 0 && forall i :: 0 <= i < |b| - 1 ==> b[i] < b[i + 1]
  }

  /** Comparing neighbours is enough: the whole list is strictly increasing. */
  lemma {:induction false} CheckedBoundariesAreOrdered(b: seq<int>, i: nat, j: nat)
    requires CheckedBoundaries(b) && i < j < |b|
    ensures b[i] < b[j]
  {
    if i + 1 < j {
      CheckedBoundariesAreOrdered(b, i, j - 1);
    }
  }

  /** How many boundaries lie strictly below `v`. */
  function BucketIndex(b: seq<int>, v: int): (r: nat)
    ensures r <= |b|
  {
    if |b| == 0 then 0
    else BucketIndex(b[..|b| - 1], v) + if b[|b| - 1] < v then 1 else 0
  }

  /** With checked boundaries, `v` sits in the half-open interval its index names. */
  lemma {:induction false} BucketIndexSplits(b: seq<int>, v: int, i: nat)
    requires forall k, l :: 0 <= k < l < |b| ==> b[k] < b[l]
    requires i <= |b|
    ensures i == BucketIndex(b, v) <==>
            (forall k :: 0 <= k < i ==> b[k] < v) && (forall k :: i <= k < |b| ==> v <= b[k])
  {
    if |b| > 0 {
      var front := b[..|b| - 1];
      if b[|b| - 1] < v {
        BucketIndexSplits(front, v, |front|);
        assert forall k :: 0 <= k < |front| ==> front[k] < b[|b| - 1];
        assert BucketIndex(b, v) == |b|;
      } else if i <= |front| {
        BucketIndexSplits(front, v, i);
      } else {
        assert b[|b| - 1] == b[i - 1];
      }
    }
  }

  // ---------------------------------------------------------------- totals of a list of writes

  function Sign(w: Write): int {
    if w.Add? then 1 else -1
  }

  /** Adds minus subs. */
  function Net(log: seq<Write>): int {
    if |log| == 0 then 0 else Net(log[..|log| - 1]) + Sign(log[|log| - 1])
  }

  /** Adds minus subs whose value falls in bucket `i`. */
  function NetIn(b: seq<int>, log: seq<Write>, i: nat): int {
    if |log| == 0 then 0
    else
      var w := log[|log| - 1];
      NetIn(b, log[..|log| - 1], i) + if BucketIndex(b, w.value) == i then Sign(w) else 0
  }

  /** Values added minus values subtracted. */
  function NetSum(log: seq<Write>): int {
    if |log| == 0 then 0
    else
      var w := log[|log| - 1];
      NetSum(log[..|log| - 1]) + Sign(w) * w.value
  }

  function Lesser(x: int, y: int): int {
    if y < x then y else x
  }

  function Greater(x: int, y: int): int {
    if x < y then y else x
  }

  /** The least value ever added, or `top`; a sub does not undo it. */
  function Least(top: int, log: seq<Write>): int {
    if |log| == 0 then top
    else
      var w := log[|log| - 1];
      var m := Least(top, log[..|log| - 1]);
      if w.Add? then Lesser(m, w.value) else m
  }

  function Greatest(bottom: int, log: seq<Write>): int {
    if |log| == 0 then bottom
    else
      var w := log[|log| - 1];
      var m := Greatest(bottom, log[..|log| - 1]);
      if w.Add? then Greater(m, w.value) else m
  }

  /** What the cells hold once exactly the writes in `log` have been applied, in any order. */
  function Expected(lo: int, b: seq<int>, log: seq<Write>): State {
    State(
      seq(|b| + 1, i requires 0 <= i <= |b| => Wrap(0, NetIn(b, log, i))),
      Wrap(lo, NetSum(log)), Least(Hi(lo), log), Greatest(lo, log), Wrap(0, Net(log)))
  }

  /** Min and max are reported only while the count is non-zero. */
  function ToSnapshot(b: seq<int>, s: State): Snapshot {
    Snapshot(b, s.bucketCounts, s.count, s.sum,
             if s.count == 0 then None else Some(s.min),
             if s.count == 0 then None else Some(s.max))
  }

  function SnapshotOf(lo: int, b: seq<int>, log: seq<Write>): Snapshot {
    ToSnapshot(b, Expected(lo, b, log))
  }

  // ---------------------------------------------------------------- bucket counts and count

  function Total(counts: seq<int>): int {
    if |counts| == 0 then 0 else Total(counts[..|counts| - 1]) + counts[|counts| - 1]
  }

  function NetBelow(b: seq<int>, log: seq<Write>, n: nat): int {
    if n == 0 then 0 else NetBelow(b, log, n - 1) + NetIn(b, log, n - 1)
  }

  lemma {:induction false} NetBelowStep(b: seq<int>, log: seq<Write>, n: nat)
    requires |log| > 0
    ensures var w := log[|log| - 1];
            NetBelow(b, log, n) == NetBelow(b, log[..|log| - 1], n) + if BucketIndex(b, w.value) < n then Sign(w) else 0
  {
    if n > 0 {
      NetBelowStep(b, log, n - 1);
    }
  }

  /** Every write is in exactly one bucket. */
  lemma {:induction false} NetIsSplitByBuckets(b: seq<int>, log: seq<Write>)
    ensures NetBelow(b, log, |b| + 1) == Net(log)
  {
    if |log| == 0 {
      NetBelowEmpty(b, |b| + 1);
    } else {
      NetIsSplitByBuckets(b, log[..|log| - 1]);
      NetBelowStep(b, log, |b| + 1);
    }
  }

  lemma {:induction false} NetBelowEmpty(b: seq<int>, n: nat)
    ensures NetBelow(b, [], n) == 0
  {
    if n > 0 {
      NetBelowEmpty(b, n - 1);
    }
  }

  lemma {:induction false} TotalIsNetBelow(b: seq<int>, log: seq<Write>, counts: seq<int>)
    requires forall i :: 0 <= i < |counts| ==> counts[i] == Wrap(0, NetIn(b, log, i))
    ensures Congruent(Total(counts), NetBelow(b, log, |counts|))
  {
    if |counts| > 0 {
      TotalIsNetBelow(b, log, counts[..|counts| - 1]);
    }
  }

  /** In every state the writes can produce, the bucket counts sum to the count modulo 2^64. */
  lemma BucketCountsSumToCount(lo: int, b: seq<int>, log: seq<Write>)
    ensures Congruent(Total(SnapshotOf(lo, b, log).bucketCounts), SnapshotOf(lo, b, log).count)
  {
    var s := SnapshotOf(lo, b, log);
    TotalIsNetBelow(b, log, s.bucketCounts);
    NetIsSplitByBuckets(b, log);
  }

  // ---------------------------------------------------------------- extrema

  predicate Adds(log: seq<Write>, v: int) {
    Write.Add(v) in log
  }

  /** The values added are values of the measure. */
  ghost predicate AddsFit(lo: int, log: seq<Write>) {
    forall v :: Adds(log, v) ==> lo <= v < lo + 0x1_0000_0000_0000_0000
  }

  /** The snapshot's extrema are there exactly while its count is not zero. They are values added, no value added
      lies outside them, and without any they are the greatest and the least value of the measure. */
  ghost predicate ExtremaOk(lo: int, log: seq<Write>, s: Snapshot) {
    && (s.min.None? <==> s.count == 0) && (s.max.None? <==> s.count == 0)
    && (s.count != 0 ==>
          && (forall v :: Adds(log, v) ==> s.min.value <= v <= s.max.value)
          && if exists v :: Adds(log, v) then Adds(log, s.min.value) && Adds(log, s.max.value)
             else s.min.value == lo + 0xFFFF_FFFF_FFFF_FFFF && s.max.value == lo)
  }

  lemma AddsStep(log: seq<Write>)
    requires |log| > 0
    ensures forall v :: Adds(log, v) <==> Adds(log[..|log| - 1], v) || log[|log| - 1] == Write.Add(v)
  {
    assert log == log[..|log| - 1] + [log[|log| - 1]];
  }

  lemma {:induction false} LeastIsLeast(top: int, log: seq<Write>)
    ensures Least(top, log) == top || Adds(log, Least(top, log))
    ensures Least(top, log) <= top && forall v :: Adds(log, v) ==> Least(top, log) <= v
  {
    if |log| > 0 {
      LeastIsLeast(top, log[..|log| - 1]);
      AddsStep(log);
    }
  }

  lemma {:induction false} GreatestIsGreatest(bottom: int, log: seq<Write>)
    ensures Greatest(bottom, log) == bottom || Adds(log, Greatest(bottom, log))
    ensures bottom <= Greatest(bottom, log) && forall v :: Adds(log, v) ==> v <= Greatest(bottom, log)
  {
    if |log| > 0 {
      GreatestIsGreatest(bottom, log[..|log| - 1]);
      AddsStep(log);
    }
  }

  /** The extrema reported are the least and the greatest value added. */
  lemma ExtremaAreOfTheAdds(lo: int, b: seq<int>, log: seq<Write>)
    requires AddsFit(lo, log)
    ensures ExtremaOk(lo, log, SnapshotOf(lo, b, log))
  {
    LeastIsLeast(Hi(lo), log);
    GreatestIsGreatest(lo, log);
  }
}
