/** One histogram, updated in place, a call at a time: its cells are at all times what its writes add up to. */
module HistogramBucket {
  import opened Wrappers
  import opened Measure
  import opened Histogram

  datatype Error = InvalidHistogramBoundaries

  /** One more write: how each cell moves. */
  lemma OneMoreWrite(lo: int, b: seq<int>, log: seq<Write>, w: Write)
    ensures var s, t := Expected(lo, b, log), Expected(lo, b, log + [w]);
            && (forall i :: 0 <= i <= |b| ==>
                  t.bucketCounts[i] ==
                  if BucketIndex(b, w.value) == i then Wrap(0, s.bucketCounts[i] + Sign(w)) else s.bucketCounts[i])
            && t.sum == Wrap(lo, s.sum + Sign(w) * w.value)
            && t.count == Wrap(0, s.count + Sign(w))
            && t.min == (if w.Add? then Lesser(s.min, w.value) else s.min)
            && t.max == (if w.Add? then Greater(s.max, w.value) else s.max)
  {
    assert (log + [w])[..|log|] == log;
    forall i | 0 <= i <= |b| && BucketIndex(b, w.value) == i
      ensures Wrap(0, NetIn(b, log + [w], i)) == Wrap(0, Wrap(0, NetIn(b, log, i)) + Sign(w))
    {
      WrapAccumulates(0, NetIn(b, log, i), Sign(w));
    }
    WrapAccumulates(lo, NetSum(log), Sign(w) * w.value);
    WrapAccumulates(0, Net(log), Sign(w));
  }

  /** The cells after one more write, computed one by one, are what the longer log adds up to. */
  lemma CellsMove(lo: int, b: seq<int>, log: seq<Write>, w: Write, s: State, index: nat)
    requires s == Expected(lo, b, log) && index == BucketIndex(b, w.value)
    ensures State(s.bucketCounts[index := Wrap(0, s.bucketCounts[index] + Sign(w))],
                  Wrap(lo, s.sum + Sign(w) * w.value),
                  if w.Add? then Lesser(s.min, w.value) else s.min,
                  if w.Add? then Greater(s.max, w.value) else s.max,
                  Wrap(0, s.count + Sign(w))) == Expected(lo, b, log + [w])
  {
    OneMoreWrite(lo, b, log, w);
    var t := Expected(lo, b, log + [w]);
    assert t.bucketCounts == s.bucketCounts[index := Wrap(0, s.bucketCounts[index] + Sign(w))];
  }

  lemma NothingWritten(lo: int, b: seq<int>)
    requires lo <= 0 < lo + TWO_TO_THE_64
    ensures Expected(lo, b, []) == State(seq(|b| + 1, i requires 0 <= i <= |b| => 0), 0, Hi(lo), lo, 0)
  {
  }

  /** Accepts exactly the non-empty, strictly increasing lists. */
  method CheckBoundaries(b: seq<int>) returns (r: Result<seq<int>, Error>)
    ensures r == if CheckedBoundaries(b) then Ok(b) else Err(InvalidHistogramBoundaries)
    ensures r.Ok? <==> b != [] && forall i, j :: 0 <= i < j < |b| ==> b[i] < b[j]
  {
    if CheckedBoundaries(b) {
      forall i, j | 0 <= i < j < |b| ensures b[i] < b[j] {
        CheckedBoundariesAreOrdered(b, i, j);
      }
    }
    if |b| == 0 {
      return Err(InvalidHistogramBoundaries);
    }
    for i := 0 to |b| - 1
      invariant forall k :: 0 <= k < i ==> b[k] < b[k + 1]
    {
      if !(b[i] < b[i + 1]) {
        return Err(InvalidHistogramBoundaries);
      }
    }
    return Ok(b);
  }

  class Bucket {
    const boundaries: seq<int>
    /** The least value of the measure. */
    const lo: int

    /** The live generation's cells; taking replaces them. */
    var bucketCounts: array<int>
    var sum: int
    var min: int
    var max: int
    var count: int

    /** The writes of the live generation. */
    ghost var log: seq<Write>

    ghost function Cells(): State
      reads this, bucketCounts
    {
      State(bucketCounts[..], sum, min, max, count)
    }

    ghost predicate Valid()
      reads this, bucketCounts
    {
      && CheckedBoundaries(boundaries) && lo <= 0 < lo + TWO_TO_THE_64
      && bucketCounts.Length == |boundaries| + 1
      && Cells() == Expected(lo, boundaries, log)
    }

    constructor FromChecked(boundaries: seq<int>, lo: int)
      requires CheckedBoundaries(boundaries) && lo <= 0 < lo + TWO_TO_THE_64
      ensures Valid() && fresh(bucketCounts) && log == [] && this.boundaries == boundaries && this.lo == lo
    {
      this.boundaries, this.lo := boundaries, lo;
      bucketCounts := new int[|boundaries| + 1](_ => 0);
      sum, min, max, count := 0, Hi(lo), lo, 0;
      log := [];
      new;
      NothingWritten(lo, boundaries);
    }

    /** Bisection for the first boundary not below the value. */
    method IndexOf(value: int) returns (i: nat)
      requires CheckedBoundaries(boundaries)
      ensures i <= |boundaries| && i == BucketIndex(boundaries, value)
      ensures forall k :: 0 <= k < i ==> boundaries[k] < value
      ensures forall k :: i <= k < |boundaries| ==> value <= boundaries[k]
    {
      forall k, l | 0 <= k < l < |boundaries| ensures boundaries[k] < boundaries[l] {
        CheckedBoundariesAreOrdered(boundaries, k, l);
      }
      i := 0;
      var j := |boundaries|;
      while i < j
        invariant 0 <= i <= j <= |boundaries|
        invariant forall k :: 0 <= k < i ==> boundaries[k] < value
        invariant forall k :: j <= k < |boundaries| ==> value <= boundaries[k]
      {
        var m := (i + j) / 2;
        if boundaries[m] < value {
          i := m + 1;
        } else {
          j := m;
        }
      }
      BucketIndexSplits(boundaries, value, i);
    }

    method Add(value: int)
      requires Valid()
      modifies this, bucketCounts
      ensures Valid() && log == old(log) + [Write.Add(value)] && bucketCounts == old(bucketCounts)
    {
      var index := IndexOf(value);
      ghost var before := Cells();
      CellsMove(lo, boundaries, log, Write.Add(value), before, index);
      sum := Wrap(lo, sum + value);
      min := Lesser(min, value);
      max := Greater(max, value);
      bucketCounts[index] := Wrap(0, bucketCounts[index] + 1);
      count := Wrap(0, count + 1);
      log := log + [Write.Add(value)];
      assert Cells().bucketCounts == before.bucketCounts[index := Wrap(0, before.bucketCounts[index] + 1)];
    }

    /** Undoes the counts and the sum of a matching add; the extrema stay. */
    method Sub(value: int)
      requires Valid()
      modifies this, bucketCounts
      ensures Valid() && log == old(log) + [Write.Sub(value)] && bucketCounts == old(bucketCounts)
    {
      var index := IndexOf(value);
      ghost var before := Cells();
      CellsMove(lo, boundaries, log, Write.Sub(value), before, index);
      sum := Wrap(lo, sum - value);
      bucketCounts[index] := Wrap(0, bucketCounts[index] - 1);
      count := Wrap(0, count - 1);
      log := log + [Write.Sub(value)];
      assert Cells().bucketCounts == before.bucketCounts[index := Wrap(0, before.bucketCounts[index] - 1)];
    }

    method Current() returns (s: Snapshot)
      requires Valid()
      ensures s == SnapshotOf(lo, boundaries, log)
      ensures Congruent(Total(s.bucketCounts), s.count)
      ensures AddsFit(lo, log) ==> ExtremaOk(lo, log, s)
    {
      BucketCountsSumToCount(lo, boundaries, log);
      if AddsFit(lo, log) {
        ExtremaAreOfTheAdds(lo, boundaries, log);
      }
      var extrema := if count == 0 then (None, None) else (Some(min), Some(max));
      s := Snapshot(boundaries, bucketCounts[..], count, sum, extrema.0, extrema.1);
    }

    /** Swaps in a fresh generation and reports the old one. */
    method Take() returns (s: Snapshot)
      requires Valid()
      modifies this
      ensures Valid() && fresh(bucketCounts) && log == []
      ensures s == SnapshotOf(lo, boundaries, old(log)) && (AddsFit(lo, old(log)) ==> ExtremaOk(lo, old(log), s))
    {
      s := Current();
      bucketCounts := new int[|boundaries| + 1](_ => 0);
      sum, min, max, count := 0, Hi(lo), lo, 0;
      log := [];
      NothingWritten(lo, boundaries);
    }

    method Clear()
      requires Valid()
      modifies this
      ensures Valid() && fresh(bucketCounts) && log == []
    {
      var _ := Take();
    }
  }

  method New(boundaries: seq<int>, lo: int) returns (r: Result<Bucket, Error>)
    requires lo <= 0 < lo + TWO_TO_THE_64
    ensures r.Ok? <==> boundaries != [] && forall i, j :: 0 <= i < j < |boundaries| ==> boundaries[i] < boundaries[j]
    ensures r.Ok? ==>
        r.value.Valid() && fresh(r.value) && r.value.log == [] && r.value.boundaries == boundaries && r.value.lo == lo
  {
    var checked := CheckBoundaries(boundaries);
    if checked.Err? {
      return Err(checked.error);
    }
    var bucket := new Bucket.FromChecked(checked.value, lo);
    r := Ok(bucket);
  }
}
