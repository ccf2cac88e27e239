/** From recorded values to the printed `le` lines of a histogram. */
module HistogramLines {
  import opened Wrappers
  import opened Measure
  import H = Histogram
  import opened HistogramDelta
  import opened Exposition
  import opened PrometheusLabels
  import opened PrometheusRender
  import opened PrometheusUnique
  import opened PrometheusPoints

  // ---------------------------------------------------------------- conversion

  /** The boundaries as doubles, or the error for the first that is not finite. */
  function ConvertBoundaries(metric: string, toNumber: int -> Number, b: seq<int>): Result<seq<Number>, Error> {
    if |b| == 0 then Ok([])
    else
      var front, last := ConvertBoundaries(metric, toNumber, b[..|b| - 1]), toNumber(b[|b| - 1]);
      if front.Err? then front else if !last.Finite? then Err(NonFiniteBoundary(metric)) else Ok(front.value + [last])
  }

  function ToPoint(metric: string, toNumber: int -> Number, s: H.Snapshot): Result<PointValue, Error> {
    var b := ConvertBoundaries(metric, toNumber, s.boundaries);
    if b.Err? then Err(b.error) else Ok(Buckets(HistogramValue(b.value, s.bucketCounts, s.count, toNumber(s.sum))))
  }

  lemma {:induction false} ConvertedAt(metric: string, toNumber: int -> Number, b: seq<int>)
    ensures ConvertBoundaries(metric, toNumber, b).Ok? <==> forall i :: 0 <= i < |b| ==> toNumber(b[i]).Finite?
    ensures ConvertBoundaries(metric, toNumber, b).Err? ==>
              ConvertBoundaries(metric, toNumber, b).error == NonFiniteBoundary(metric)
    ensures ConvertBoundaries(metric, toNumber, b).Ok? ==>
      && |ConvertBoundaries(metric, toNumber, b).value| == |b|
      && forall i :: 0 <= i < |b| ==> ConvertBoundaries(metric, toNumber, b).value[i] == toNumber(b[i])
  {
    if |b| > 0 {
      ConvertedAt(metric, toNumber, b[..|b| - 1]);
    }
  }

  /** Neighbours are told apart by the conversion, as they are before it. */
  predicate Separates(toNumber: int -> Number, b: seq<int>) {
    && (forall i :: 0 <= i < |b| ==> toNumber(b[i]).Finite?)
    && (forall i :: 0 < i < |b| && toNumber(b[i - 1]).Finite? && toNumber(b[i]).Finite? ==>
          toNumber(b[i - 1]).rank < toNumber(b[i]).rank)
  }

  lemma {:induction false} SeparatesAll(toNumber: int -> Number, b: seq<int>, i: nat, j: nat)
    requires Separates(toNumber, b) && i < j < |b|
    ensures toNumber(b[i]).rank < toNumber(b[j]).rank
  {
    if i + 1 < j {
      SeparatesAll(toNumber, b, i, j - 1);
    }
  }

  /** Such a conversion succeeds and gives a point fit to be scraped. */
  lemma ConvertedIsOk(metric: string, toNumber: int -> Number, s: H.Snapshot)
    requires Separates(toNumber, s.boundaries)
    ensures ToPoint(metric, toNumber, s).Ok?
    ensures FitsKind(Histogram, ToPoint(metric, toNumber, s).value) && TellsApart(ToPoint(metric, toNumber, s).value)
  {
    var b := s.boundaries;
    ConvertedAt(metric, toNumber, b);
    forall i, j | 0 <= i < j < |b| ensures toNumber(b[i]) != toNumber(b[j]) {
      SeparatesAll(toNumber, b, i, j);
    }
  }

  // ---------------------------------------------------------------- counting

  /** How many of the values added are at most `x`. */
  function CountAtMost(log: seq<H.Write>, x: int): nat {
    if |log| == 0 then 0
    else CountAtMost(log[..|log| - 1], x) + if log[|log| - 1].value <= x then 1 else 0
  }

  /** The buckets up to a boundary hold the values at most that boundary. */
  lemma {:induction false} BucketsBelow(b: seq<int>, log: seq<H.Write>, k: nat)
    requires H.CheckedBoundaries(b) && AddsOnly(log) && k < |b|
    ensures H.NetBelow(b, log, k + 1) == CountAtMost(log, b[k])
  {
    if |log| == 0 {
      H.NetBelowEmpty(b, k + 1);
    } else {
      BucketsBelow(b, log[..|log| - 1], k);
      H.NetBelowStep(b, log, k + 1);
      IndexBelow(b, log[|log| - 1].value, k);
    }
  }

  lemma IndexBelow(b: seq<int>, v: int, k: nat)
    requires H.CheckedBoundaries(b) && k < |b|
    ensures H.BucketIndex(b, v) <= k <==> v <= b[k]
  {
    forall i, j | 0 <= i < j < |b| ensures b[i] < b[j] {
      H.CheckedBoundariesAreOrdered(b, i, j);
    }
    H.BucketIndexSplits(b, v, H.BucketIndex(b, v));
  }

  lemma {:induction false} NetBelowIsSmall(b: seq<int>, log: seq<H.Write>, k: nat)
    requires AddsOnly(log)
    ensures 0 <= H.NetBelow(b, log, k) <= |log|
  {
    if |log| == 0 {
      H.NetBelowEmpty(b, k);
    } else {
      NetBelowIsSmall(b, log[..|log| - 1], k);
      H.NetBelowStep(b, log, k);
    }
  }

  /** The running total never saturates. */
  lemma {:induction false} CumulativeIsExact(lo: int, b: seq<int>, log: seq<H.Write>, k: nat)
    requires Countable(log) && k <= |b| + 1
    ensures Cumulative(H.SnapshotOf(lo, b, log).bucketCounts, k) == H.NetBelow(b, log, k)
  {
    if k > 0 {
      CumulativeIsExact(lo, b, log, k - 1);
      AddsDoNotWrap(lo, b, log);
      NetBelowIsSmall(b, log, k);
    }
  }

  lemma {:induction false} CountsGrow(log: seq<H.Write>, x: int, y: int)
    requires x <= y
    ensures CountAtMost(log, x) <= CountAtMost(log, y) <= |log|
  {
    if |log| > 0 {
      CountsGrow(log[..|log| - 1], x, y);
    }
  }

  /** The values recorded, added up. */
  function SumOf(log: seq<H.Write>): int {
    if |log| == 0 then 0 else SumOf(log[..|log| - 1]) + log[|log| - 1].value
  }

  lemma {:induction false} SumOfAdds(log: seq<H.Write>)
    requires AddsOnly(log)
    ensures H.NetSum(log) == SumOf(log)
  {
    if |log| > 0 {
      SumOfAdds(log[..|log| - 1]);
    }
  }

  // ---------------------------------------------------------------- the printed lines

  /** Line number `k` of a histogram of recorded values: for each boundary the number of values at most it, then their
      number under `+Inf`, their sum as the cell holds it, and their number again. */
  predicate IsLineOfLog(
    pr: Printer, name: string, ls: seq<Label>, toNumber: int -> Number, lo: int, b: seq<int>, log: seq<H.Write>, k: nat,
    s: Sample)
  {
    if k < |b| then
      && IsBucketLine(name, ls, s) && Writes(pr, toNumber(b[k]), s.labels[|ls|].value)
      && s.value == pr.decimal(CountAtMost(log, b[k]))
    else if k == |b| then
      IsBucketLine(name, ls, s) && s.labels[|ls|].value == "+Inf" && s.value == pr.decimal(|log|)
    else if k == |b| + 1 then
      s.name == name + "_sum" && s.labels == ls && Writes(pr, toNumber(Wrap(lo, SumOf(log))), s.value)
    else k == |b| + 2 && s.name == name + "_count" && s.labels == ls && s.value == pr.decimal(|log|)
  }

  lemma LineOfValue(
    pr: Printer, name: string, ls: seq<Label>, toNumber: int -> Number, lo: int, b: seq<int>, log: seq<H.Write>,
    h: HistogramValue, k: nat, s: Sample)
    requires |h.boundaries| == |b| && h.count == |log| && h.sum == toNumber(Wrap(lo, SumOf(log)))
    requires k < |b| ==>
               h.boundaries[k] == toNumber(b[k]) && Cumulative(h.bucketCounts, k + 1) == CountAtMost(log, b[k])
    ensures IsLine(pr, name, ls, Buckets(h), k, s) <==> IsLineOfLog(pr, name, ls, toNumber, lo, b, log, k, s)
  {
  }

  /** The lines of a recorded histogram are these. */
  lemma LinesPrintTheCounts(
    pr: Printer, name: string, ls: seq<Label>, metric: string, toNumber: int -> Number, lo: int, b: seq<int>,
    log: seq<H.Write>, k: nat, s: Sample)
    requires H.CheckedBoundaries(b) && Countable(log) && ToPoint(metric, toNumber, H.SnapshotOf(lo, b, log)).Ok?
    ensures IsLine(pr, name, ls, ToPoint(metric, toNumber, H.SnapshotOf(lo, b, log)).value, k, s) <==>
            IsLineOfLog(pr, name, ls, toNumber, lo, b, log, k, s)
  {
    ConvertedAt(metric, toNumber, b);
    AddsDoNotWrap(lo, b, log);
    SumOfAdds(log);
    if k < |b| {
      CumulativeIsExact(lo, b, log, k + 1);
      BucketsBelow(b, log, k);
    }
    LineOfValue(
      pr, name, ls, toNumber, lo, b, log, ToPoint(metric, toNumber, H.SnapshotOf(lo, b, log)).value.histogram, k, s);
  }

  /** The numbers at the boundaries never decrease, up to the number of all values. */
  lemma LinesNeverDecrease(b: seq<int>, log: seq<H.Write>, k: nat)
    requires H.CheckedBoundaries(b) && 0 < k < |b|
    ensures CountAtMost(log, b[k - 1]) <= CountAtMost(log, b[k]) <= |log|
  {
    CountsGrow(log, b[k - 1], b[k]);
  }
}
