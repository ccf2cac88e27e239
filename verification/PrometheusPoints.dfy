/** What a point prints, said line by line. */
module PrometheusPoints {
  import H = Histogram
  import opened Exposition
  import opened PrometheusLabels
  import opened PrometheusRender
  import opened PrometheusUnique

  /** How a double is written. */
  predicate Writes(pr: Printer, n: Number, t: string) {
    match n
    case Finite(rank) => t == pr.digits(rank)
    case PosInf => t == "+Inf"
    case NegInf => t == "-Inf"
    case NaN => t == "NaN"
  }

  /** A bucket line: the point's labels with `le` last. */
  predicate IsBucketLine(name: string, ls: seq<Label>, s: Sample) {
    && s.name == name + "_bucket"
    && |s.labels| == |ls| + 1 && s.labels[..|ls|] == ls && s.labels[|ls|].name == "le"
  }

  /** The line of boundary `k`, with the running total up to it. */
  predicate IsBoundaryLine(pr: Printer, name: string, ls: seq<Label>, h: HistogramValue, k: nat, s: Sample) {
    && IsBucketLine(name, ls, s) && k < |h.boundaries|
    && Writes(pr, h.boundaries[k], s.labels[|ls|].value) && s.value == pr.decimal(Cumulative(h.bucketCounts, k + 1))
  }

  /** Line number `k` of a point: a scalar has one; a histogram has one for each boundary, one for `+Inf`, its sum and
      its count. */
  predicate IsLine(pr: Printer, name: string, ls: seq<Label>, v: PointValue, k: nat, s: Sample) {
    match v
    case Scalar(n) => k == 0 && s.name == name && s.labels == ls && Writes(pr, n, s.value)
    case Buckets(h) =>
      if k < |h.boundaries| then IsBoundaryLine(pr, name, ls, h, k, s)
      else if k == |h.boundaries| then
        IsBucketLine(name, ls, s) && s.labels[|ls|].value == "+Inf" && s.value == pr.decimal(h.count)
      else if k == |h.boundaries| + 1 then s.name == name + "_sum" && s.labels == ls && Writes(pr, h.sum, s.value)
      else
        k == |h.boundaries| + 2 && s.name == name + "_count" && s.labels == ls && s.value == pr.decimal(h.count)
  }

  function LineCount(v: PointValue): nat {
    if v.Scalar? then 1 else |v.histogram.boundaries| + 3
  }

  /** The point's samples are these lines, in this order. */
  lemma SamplesAreLines(pr: Printer, name: string, ls: seq<Label>, v: PointValue)
    ensures |PointSamples(pr, name, ls, v)| == LineCount(v)
    ensures forall k :: 0 <= k < LineCount(v) ==> IsLine(pr, name, ls, v, k, PointSamples(pr, name, ls, v)[k])
  {
    if v.Buckets? {
      BucketSampleAt(pr, name, ls, v.histogram, |v.histogram.boundaries|);
    }
  }

  lemma OneLineEach(pr: Printer, name: string, ls: seq<Label>, v: PointValue, k: nat, s: Sample, t: Sample)
    requires IsLine(pr, name, ls, v, k, s) && IsLine(pr, name, ls, v, k, t)
    ensures s == t
  {
    if v.Buckets? && k <= |v.histogram.boundaries| {
      assert s.labels == s.labels[..|ls|] + [s.labels[|ls|]];
      assert t.labels == t.labels[..|ls|] + [t.labels[|ls|]];
    }
  }

  /** A sample is printed by the point exactly when it is one of its lines. */
  lemma SampleIffLine(pr: Printer, name: string, ls: seq<Label>, v: PointValue, s: Sample)
    ensures s in PointSamples(pr, name, ls, v) <==> exists k: nat :: IsLine(pr, name, ls, v, k, s)
  {
    var samples := PointSamples(pr, name, ls, v);
    SamplesAreLines(pr, name, ls, v);
    if s in samples {
      var k :| 0 <= k < |samples| && samples[k] == s;
      assert IsLine(pr, name, ls, v, k, s);
    }
    if k: nat :| IsLine(pr, name, ls, v, k, s) {
      OneLineEach(pr, name, ls, v, k, s, samples[k]);
    }
  }

  // ---------------------------------------------------------------- the running total

  /** The running total is the sum of the counts, held at the greatest 64-bit number. */
  lemma {:induction false} RunningTotalSaturates(counts: seq<int>, k: nat)
    requires k <= |counts| && forall i :: 0 <= i < k ==> counts[i] >= 0
    ensures 0 <= H.Total(counts[..k])
    ensures Cumulative(counts, k) ==
            if H.Total(counts[..k]) <= 0xFFFF_FFFF_FFFF_FFFF then H.Total(counts[..k]) else 0xFFFF_FFFF_FFFF_FFFF
  {
    if k > 0 {
      assert counts[..k][..k - 1] == counts[..k - 1];
      RunningTotalSaturates(counts, k - 1);
    }
  }

  // ---------------------------------------------------------------- with the point's own labels

  /** The sample is one of the point's lines, under the labels of its attributes. */
  ghost predicate Prints(pr: Printer, name: string, p: Point, s: Sample) {
    exists ls, k: nat :: Describes(pr.show, p.attrs, ls) && IsLine(pr, name, ls, p.value, k, s)
  }

  lemma PrintsIff(pr: Printer, name: string, p: Point, s: Sample)
    requires NamesDiffer(p.attrs)
    ensures Prints(pr, name, p, s) <==> s in PointSamples(pr, name, LabelList(pr, p), p.value)
  {
    ListDescribes(pr.show, p.attrs);
    var ls := LabelList(pr, p);
    SampleIffLine(pr, name, ls, p.value, s);
    if Prints(pr, name, p, s) {
      var other, k: nat :| Describes(pr.show, p.attrs, other) && IsLine(pr, name, other, p.value, k, s);
      DescribedOnce(pr.show, p.attrs, ls, other);
    }
  }
}
