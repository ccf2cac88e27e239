/** Subtracting one histogram snapshot from a later one. */
module HistogramDelta {
  import opened Wrappers
  import opened Measure
  import opened Histogram

  // ---------------------------------------------------------------- the operations on snapshots

  function SaturatingSub(x: int, y: int): int {
    if x < y then 0 else x - y
  }

  /** Counts saturate; the sum is subtracted plainly and would wrap; the extrema are dropped. Lists of
      different length are cut to the shorter one. */
  function Minus(lo: int, a: Snapshot, b: Snapshot): Snapshot {
    var n := if |a.bucketCounts| < |b.bucketCounts| then |a.bucketCounts| else |b.bucketCounts|;
    Snapshot(a.boundaries, seq(n, i requires 0 <= i < n => SaturatingSub(a.bucketCounts[i], b.bucketCounts[i])),
             SaturatingSub(a.count, b.count), Wrap(lo, a.sum - b.sum), None, None)
  }

  /** Snapshots are compared by count alone. */
  /** What a count of any difference is: never negative, never less than the exact difference, and no more than one of
      the two. */
  predicate Saturates(r: int, x: int, y: int) {
    r >= 0 && r >= x - y && (r == 0 || r == x - y)
  }

  /** Any two snapshots over the same boundaries subtract count by count, each difference held at zero; the sum wraps,
      and the extrema are dropped. */
  lemma DifferenceSaturates(lo: int, a: Snapshot, b: Snapshot)
    requires |a.bucketCounts| == |b.bucketCounts|
    ensures var d := Minus(lo, a, b);
            && d.boundaries == a.boundaries && |d.bucketCounts| == |a.bucketCounts|
            && (forall i :: 0 <= i < |a.bucketCounts| ==>
                  Saturates(d.bucketCounts[i], a.bucketCounts[i], b.bucketCounts[i]))
            && Saturates(d.count, a.count, b.count)
            && lo <= d.sum < lo + 0x1_0000_0000_0000_0000 && Congruent(d.sum, a.sum - b.sum)
            && d.min.None? && d.max.None?
  {
  }

  predicate Less(a: Snapshot, b: Snapshot) {
    a.count < b.count
  }

  predicate IsInitial(s: Snapshot) {
    s.count == 0
  }

  function WithoutExtrema(s: Snapshot): Snapshot {
    s.(min := None, max := None)
  }

  // ---------------------------------------------------------------- logs of adds

  predicate AddsOnly(log: seq<Write>) {
    forall i :: 0 <= i < |log| ==> log[i].Add?
  }

  /** So few adds that no counter wraps. */
  predicate Countable(log: seq<Write>) {
    AddsOnly(log) && |log| < TWO_TO_THE_64
  }

  lemma {:induction false} NetOfParts(b: seq<int>, xs: seq<Write>, ys: seq<Write>, i: nat)
    ensures Net(xs + ys) == Net(xs) + Net(ys)
    ensures NetIn(b, xs + ys, i) == NetIn(b, xs, i) + NetIn(b, ys, i)
    ensures NetSum(xs + ys) == NetSum(xs) + NetSum(ys)
  {
    if |ys| == 0 {
      assert xs + ys == xs;
    } else {
      NetOfParts(b, xs, ys[..|ys| - 1], i);
      assert (xs + ys)[..|xs + ys| - 1] == xs + ys[..|ys| - 1];
    }
  }

  lemma {:induction false} NetOfAdds(b: seq<int>, log: seq<Write>, i: nat)
    requires AddsOnly(log)
    ensures Net(log) == |log| && 0 <= NetIn(b, log, i) <= |log|
    ensures (forall k :: 0 <= k < |log| ==> 0 <= log[k].value) ==> 0 <= NetSum(log)
  {
    if |log| > 0 {
      NetOfAdds(b, log[..|log| - 1], i);
    }
  }

  lemma AddsInParts(xs: seq<Write>, ys: seq<Write>)
    requires Countable(xs + ys)
    ensures Countable(xs) && Countable(ys)
  {
    assert forall i :: 0 <= i < |xs| ==> xs[i] == (xs + ys)[i];
    assert forall i :: 0 <= i < |ys| ==> ys[i] == (xs + ys)[|xs| + i];
  }

  /** What the cells of a log of adds hold, with nothing wrapped but the sum. */
  lemma AddsDoNotWrap(lo: int, b: seq<int>, log: seq<Write>)
    requires Countable(log)
    ensures SnapshotOf(lo, b, log).count == |log| && |SnapshotOf(lo, b, log).bucketCounts| == |b| + 1
    ensures forall i :: 0 <= i <= |b| ==> SnapshotOf(lo, b, log).bucketCounts[i] == NetIn(b, log, i)
  {
    NetOfAdds(b, log, 0);
    forall i | 0 <= i <= |b| ensures SnapshotOf(lo, b, log).bucketCounts[i] == NetIn(b, log, i) {
      NetOfAdds(b, log, i);
    }
  }

  // ---------------------------------------------------------------- deltas

  /** The later snapshot minus the earlier one is the histogram of exactly the values added in between, but
      for the extrema; no count saturates. */
  lemma DeltaIsExact(lo: int, b: seq<int>, xs: seq<Write>, ys: seq<Write>)
    requires Countable(xs + ys)
    ensures Minus(lo, SnapshotOf(lo, b, xs + ys), SnapshotOf(lo, b, xs)) == WithoutExtrema(SnapshotOf(lo, b, ys))
    ensures var earlier, later := SnapshotOf(lo, b, xs), SnapshotOf(lo, b, xs + ys);
            && |earlier.bucketCounts| == |later.bucketCounts|
            && (forall i :: 0 <= i < |later.bucketCounts| ==> earlier.bucketCounts[i] <= later.bucketCounts[i])
            && earlier.count <= later.count
  {
    var earlier, later, delta := SnapshotOf(lo, b, xs), SnapshotOf(lo, b, xs + ys), SnapshotOf(lo, b, ys);
    AddsInParts(xs, ys);
    AddsDoNotWrap(lo, b, xs);
    AddsDoNotWrap(lo, b, ys);
    AddsDoNotWrap(lo, b, xs + ys);
    forall i | 0 <= i <= |b|
      ensures later.bucketCounts[i] == earlier.bucketCounts[i] + delta.bucketCounts[i] && 0 <= delta.bucketCounts[i]
    {
      NetOfParts(b, xs, ys, i);
      NetOfAdds(b, ys, i);
    }
    NetOfParts(b, xs, ys, 0);
    SumDelta(lo, NetSum(xs), NetSum(ys));
    assert Minus(lo, later, earlier).bucketCounts == delta.bucketCounts;
  }

  lemma SumDelta(lo: int, x: int, y: int)
    ensures Wrap(lo, Wrap(lo, x + y) - Wrap(lo, x)) == Wrap(lo, y)
  {
    WrapForgetsLaps(lo, y, Laps(lo, x) - Laps(lo, x + y));
  }

  /** The plain subtraction of the sums does not go below zero for unsigned values whose total fits. */
  lemma SumDoesNotUnderflow(b: seq<int>, xs: seq<Write>, ys: seq<Write>)
    requires AddsOnly(xs + ys) && forall k :: 0 <= k < |xs + ys| ==> 0 <= (xs + ys)[k].value
    requires NetSum(xs + ys) < TWO_TO_THE_64
    ensures SnapshotOf(0, b, xs).sum <= SnapshotOf(0, b, xs + ys).sum
    ensures SnapshotOf(0, b, xs + ys).sum - SnapshotOf(0, b, xs).sum == NetSum(ys)
  {
    assert forall i :: 0 <= i < |xs| ==> xs[i] == (xs + ys)[i];
    assert forall i :: 0 <= i < |ys| ==> ys[i] == (xs + ys)[|xs| + i];
    NetOfParts(b, xs, ys, 0);
    NetOfAdds(b, xs, 0);
    NetOfAdds(b, ys, 0);
  }

  predicate Fits(lo: int, x: int) {
    lo <= x < lo + TWO_TO_THE_64
  }

  /** The plain subtraction stays in range exactly when adding the stored sum of what came in between to the
      earlier stored sum would; whatever has wrapped before. While the running sums fit, that is when what came
      in between sums in range; that the running sums fit is not enough. */
  lemma SubtractionFitsIff(lo: int, b: seq<int>, xs: seq<Write>, ys: seq<Write>)
    ensures var earlier, later := SnapshotOf(lo, b, xs).sum, SnapshotOf(lo, b, xs + ys).sum;
            var between := SnapshotOf(lo, b, ys).sum;
            && (Fits(lo, later - earlier) <==> Fits(lo, earlier + between))
            && (Fits(lo, NetSum(xs)) && Fits(lo, NetSum(xs + ys)) ==>
                  (Fits(lo, later - earlier) <==> Fits(lo, NetSum(ys))))
  {
    NetOfParts(b, xs, ys, 0);
    WrappedDifference(lo, NetSum(xs), NetSum(ys));
  }

  /** The difference of two stored sums is the stored sum of the difference, or off by one lap. */
  lemma WrappedDifference(lo: int, x: int, y: int)
    ensures Fits(lo, Wrap(lo, x + y) - Wrap(lo, x)) <==> Fits(lo, Wrap(lo, x) + Wrap(lo, y))
    ensures Fits(lo, x) && Fits(lo, x + y) ==> (Fits(lo, Wrap(lo, x + y) - Wrap(lo, x)) <==> Fits(lo, y))
  {
    var a, c, d := Wrap(lo, x), Wrap(lo, y), Wrap(lo, x + y);
    var k := Laps(lo, x) + Laps(lo, y) - Laps(lo, x + y);
    assert d == a + c + k * TWO_TO_THE_64;
  }

  /** Three adds of i64 values whose running sums all fit, and a delta between polls that does not. */
  lemma SignedSubtractionOverflows(b: seq<int>)
    ensures var lo, xs := -0x8000_0000_0000_0000, [Add(-0x8000_0000_0000_0000)];
            var ys := [Add(0x7fff_ffff_ffff_ffff), Add(1)];
            && Fits(lo, NetSum(xs)) && Fits(lo, NetSum(xs + ys))
            && !Fits(lo, SnapshotOf(lo, b, xs + ys).sum - SnapshotOf(lo, b, xs).sum)
  {
    var xs, ys := [Add(-0x8000_0000_0000_0000)], [Add(0x7fff_ffff_ffff_ffff), Add(1)];
    assert xs[..0] == [] && ys[..1] == [Add(0x7fff_ffff_ffff_ffff)] && ys[..1][..0] == [];
    assert NetSum(xs) == -0x8000_0000_0000_0000;
    assert NetSum(ys[..1]) == 0x7fff_ffff_ffff_ffff;
    NetOfParts(b, xs, ys, 0);
    SubtractionFitsIff(-0x8000_0000_0000_0000, b, xs, ys);
  }

  /** Between two polls the snapshot is unchanged exactly when nothing was added, and otherwise greater: the
      branch that takes a smaller reading for a restart is never taken. */
  lemma UnchangedOrGreater(lo: int, b: seq<int>, xs: seq<Write>, ys: seq<Write>)
    requires Countable(xs + ys)
    ensures SnapshotOf(lo, b, xs + ys) == SnapshotOf(lo, b, xs) <==> ys == []
    ensures ys != [] ==> Less(SnapshotOf(lo, b, xs), SnapshotOf(lo, b, xs + ys))
  {
    AddsInParts(xs, ys);
    AddsDoNotWrap(lo, b, xs);
    AddsDoNotWrap(lo, b, xs + ys);
    if ys == [] {
      assert xs + ys == xs;
    }
  }
}
