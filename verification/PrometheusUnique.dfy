/** Within one family, no two samples share both name and label map; and its text reads back as its samples. */
module PrometheusUnique {
  import opened Wrappers
  import opened Sequences
  import opened NamedLists
  import opened Exposition
  import opened PrometheusRender

  // ---------------------------------------------------------------- hypotheses on a metric

  predicate FiniteBoundaries(h: HistogramValue) {
    forall i :: 0 <= i < |h.boundaries| ==> h.boundaries[i].Finite?
  }

  predicate DifferentBoundaries(h: HistogramValue) {
    forall i, j :: 0 <= i < j < |h.boundaries| ==> h.boundaries[i] != h.boundaries[j]
  }

  /** Histograms, and only they, hold histogram points; boundaries are finite. */
  predicate FitsKind(kind: Kind, v: PointValue) {
    (v.Buckets? <==> kind.Histogram?) && (v.Buckets? ==> FiniteBoundaries(v.histogram))
  }

  predicate MetricOk(m: Metric) {
    forall p :: p in m.points ==> FitsKind(m.kind, p.value)
  }

  /** Boundaries that are different still as doubles. */
  predicate TellsApart(v: PointValue) {
    v.Buckets? ==> DifferentBoundaries(v.histogram)
  }

  predicate AllTellApart(points: seq<Point>) {
    forall p :: p in points ==> TellsApart(p.value)
  }

  // ---------------------------------------------------------------- duplicates

  predicate Same(s: Sample, t: Sample) {
    s.name == t.name && ToMap(s.labels) == ToMap(t.labels)
  }

  predicate AllDistinct(samples: seq<Sample>) {
    forall i, j :: 0 <= i < j < |samples| ==> !Same(samples[i], samples[j])
  }

  lemma DistinctAppend(a: seq<Sample>, b: seq<Sample>)
    requires forall s, t :: s in a && t in b ==> !Same(s, t)
    ensures AllDistinct(a + b) <==> AllDistinct(a) && AllDistinct(b)
  {
    var c := a + b;
    assert forall i :: 0 <= i < |a| ==> c[i] == a[i];
    assert forall i :: 0 <= i < |b| ==> c[|a| + i] == b[i];
    if AllDistinct(a) && AllDistinct(b) {
      forall i, j | 0 <= i < j < |c| ensures !Same(c[i], c[j]) {
        if i < |a| <= j {
          assert a[i] in a && b[j - |a|] in b;
        }
      }
    }
    if AllDistinct(c) {
      forall i, j | 0 <= i < j < |b| ensures !Same(b[i], b[j]) {
        assert !Same(c[|a| + i], c[|a| + j]);
      }
    }
  }

  /** A histogram sample's labels without the generated one. */
  function Core(s: Sample): map<string, string> {
    ToMap(s.labels) - {"le"}
  }

  lemma WithLeMap(ls: seq<Label>, le: string)
    requires Distinct(ls) && "le" !in NamesOf(ls)
    ensures ToMap(ls + [Named("le", le)]) == ToMap(ls)["le" := le]
    ensures ToMap(ls)["le" := le] - {"le"} == ToMap(ls) && ToMap(ls) - {"le"} == ToMap(ls)
  {
    ToMapMembers(ls);
    assert (ls + [Named("le", le)])[..|ls|] == ls;
  }

  function NthBucket(pr: Printer, name: string, ls: seq<Label>, h: HistogramValue, i: nat): Sample
    requires i < |h.boundaries|
  {
    BucketSample(name, ls, WriteNumber(pr, h.boundaries[i]), pr.decimal(Cumulative(h.bucketCounts, i + 1)))
  }

  lemma {:induction false} BucketSampleAt(pr: Printer, name: string, ls: seq<Label>, h: HistogramValue, k: nat)
    requires k <= |h.boundaries|
    ensures |BucketSamples(pr, name, ls, h, k)| == k
    ensures forall i :: 0 <= i < k ==> BucketSamples(pr, name, ls, h, k)[i] == NthBucket(pr, name, ls, h, i)
  {
    if k > 0 {
      BucketSampleAt(pr, name, ls, h, k - 1);
    }
  }

  lemma SuffixesDiffer(name: string)
    ensures name + "_bucket" != name + "_sum" && name + "_bucket" != name + "_count" && name + "_sum" != name + "_count"
  {
    assert (name + "_sum")[|name| + 3] == 'm' && (name + "_count")[|name| + 3] == 'u';
    assert (name + "_bucket")[|name| + 3] == 'c';
  }

  /** The `le` texts of a histogram point, the last one `+Inf`. */
  function LeTexts(pr: Printer, h: HistogramValue): seq<string> {
    seq(|h.boundaries|, i requires 0 <= i < |h.boundaries| => WriteNumber(pr, h.boundaries[i])) + ["+Inf"]
  }

  lemma LeTextsDiffer(pr: Printer, h: HistogramValue)
    requires Tame(pr) && FiniteBoundaries(h) && DifferentBoundaries(h)
    ensures forall i, j :: 0 <= i < j < |LeTexts(pr, h)| ==> LeTexts(pr, h)[i] != LeTexts(pr, h)[j]
  {
  }

  lemma HistogramSamplesDiffer(pr: Printer, name: string, ls: seq<Label>, h: HistogramValue)
    requires Tame(pr) && FiniteBoundaries(h) && DifferentBoundaries(h) && Distinct(ls) && "le" !in NamesOf(ls)
    ensures AllDistinct(HistogramSamples(pr, name, ls, h))
  {
    var samples, n := HistogramSamples(pr, name, ls, h), |h.boundaries|;
    SuffixesDiffer(name);
    LeTextsDiffer(pr, h);
    BucketsCarryLe(pr, name, ls, h);
    WithLeMap(ls, "");
    forall i, j | 0 <= i < j < |samples| ensures !Same(samples[i], samples[j]) {
      if j <= n {
        assert LeOf(samples[i]) == LeTexts(pr, h)[i] && LeOf(samples[j]) == LeTexts(pr, h)[j];
      }
    }
  }

  /** But for `le`, a histogram's samples carry the labels of their point. */
  lemma HistogramCores(pr: Printer, name: string, ls: seq<Label>, h: HistogramValue)
    requires Distinct(ls) && "le" !in NamesOf(ls)
    ensures forall s :: s in HistogramSamples(pr, name, ls, h) ==> Core(s) == ToMap(ls)
  {
    var samples := HistogramSamples(pr, name, ls, h);
    BucketsCarryLe(pr, name, ls, h);
    WithLeMap(ls, "");
    forall s | s in samples ensures Core(s) == ToMap(ls) {
      var i :| 0 <= i < |samples| && samples[i] == s;
    }
  }

  /** A histogram's samples are all different exactly when its boundaries are different as doubles: those that
      collapse in conversion give two lines with one name and label map. */
  lemma HistogramSamplesDifferIff(pr: Printer, name: string, ls: seq<Label>, h: HistogramValue)
    requires Tame(pr) && FiniteBoundaries(h) && Distinct(ls) && "le" !in NamesOf(ls)
    ensures AllDistinct(HistogramSamples(pr, name, ls, h)) <==> DifferentBoundaries(h)
  {
    if DifferentBoundaries(h) {
      HistogramSamplesDiffer(pr, name, ls, h);
    } else {
      var i, j :| 0 <= i < j < |h.boundaries| && h.boundaries[i] == h.boundaries[j];
      var samples := HistogramSamples(pr, name, ls, h);
      BucketSampleAt(pr, name, ls, h, |h.boundaries|);
      assert samples[i] == NthBucket(pr, name, ls, h, i) && samples[j] == NthBucket(pr, name, ls, h, j);
      assert Same(samples[i], samples[j]);
    }
  }

  function LeOf(s: Sample): string {
    if "le" in ToMap(s.labels) then ToMap(s.labels)["le"] else ""
  }

  lemma BucketsCarryLe(pr: Printer, name: string, ls: seq<Label>, h: HistogramValue)
    requires Distinct(ls) && "le" !in NamesOf(ls)
    ensures var samples, n := HistogramSamples(pr, name, ls, h), |h.boundaries|;
            && |samples| == n + 3 && samples[n + 1].name == name + "_sum" && samples[n + 2].name == name + "_count"
            && samples[n + 1].labels == ls && samples[n + 2].labels == ls
            && forall i :: 0 <= i <= n ==>
                 && samples[i].name == name + "_bucket" && LeOf(samples[i]) == LeTexts(pr, h)[i]
                 && Core(samples[i]) == ToMap(ls)
  {
    var samples, les, n := HistogramSamples(pr, name, ls, h), LeTexts(pr, h), |h.boundaries|;
    BucketSampleAt(pr, name, ls, h, n);
    forall i | 0 <= i <= n
      ensures samples[i].name == name + "_bucket" && LeOf(samples[i]) == les[i] && Core(samples[i]) == ToMap(ls)
    {
      assert samples[i].name == name + "_bucket" && samples[i].labels == ls + [Named("le", les[i])];
      WithLeMap(ls, les[i]);
    }
  }

  /** What identifies the point behind a sample. */
  function PointMap(kind: Kind, s: Sample): map<string, string> {
    if kind.Histogram? then Core(s) else ToMap(s.labels)
  }

  lemma PointSamplesDiffer(pr: Printer, m: Metric, name: string, p: Named<Point>)
    requires Tame(pr) && PointOk(pr, m, p) && FitsKind(m.kind, p.value.value)
    ensures var samples := PointSamples(pr, name, LabelList(pr, p.value), p.value.value);
            && (AllDistinct(samples) <==> TellsApart(p.value.value))
            && forall s :: s in samples ==> PointMap(m.kind, s) == ToMap(LabelList(pr, p.value))
  {
    if p.value.value.Buckets? {
      HistogramSamplesDifferIff(pr, name, LabelList(pr, p.value), p.value.value.histogram);
      HistogramCores(pr, name, LabelList(pr, p.value), p.value.value.histogram);
    }
  }

  /** Different label strings stand for different label maps. */
  lemma MapsDiffer(pr: Printer, m: Metric, p: Named<Point>, q: Named<Point>)
    requires PointOk(pr, m, p) && PointOk(pr, m, q) && p.name != q.name
    ensures ToMap(LabelList(pr, p.value)) != ToMap(LabelList(pr, q.value))
  {
    if ToMap(LabelList(pr, p.value)) == ToMap(LabelList(pr, q.value)) {
      SameMapSameContents(LabelList(pr, p.value), LabelList(pr, q.value));
      SortedAlike(LabelList(pr, p.value), LabelList(pr, q.value));
    }
  }

  ghost predicate FromPoint(pr: Printer, kind: Kind, points: seq<Named<Point>>, s: Sample) {
    exists i :: 0 <= i < |points| && PointMap(kind, s) == ToMap(LabelList(pr, points[i].value))
  }

  ghost predicate PointsOk(pr: Printer, m: Metric, points: seq<Named<Point>>) {
    && Distinct(points)
    && forall i :: 0 <= i < |points| ==>
         PointOk(pr, m, points[i]) && FitsKind(m.kind, points[i].value.value)
  }

  /** A family's samples are all different exactly when each of its points tells its boundaries apart. */
  lemma {:induction false} FamilySamplesDiffer(pr: Printer, m: Metric, name: string, points: seq<Named<Point>>)
    requires Tame(pr) && PointsOk(pr, m, points)
    ensures AllDistinct(SamplesOf(pr, name, points)) <==> AllTellApart(ValuesOf(points))
    ensures forall s :: s in SamplesOf(pr, name, points) ==> FromPoint(pr, m.kind, points, s)
  {
    if |points| > 0 {
      var front, p := points[..|points| - 1], points[|points| - 1];
      FrontAndLast(points);
      FrontPointsOk(pr, m, front, p, points);
      FamilySamplesDiffer(pr, m, name, front);
      OneMorePoint(pr, m, name, front, p, points);
    }
  }

  lemma FrontPointsOk(pr: Printer, m: Metric, front: seq<Named<Point>>, p: Named<Point>, points: seq<Named<Point>>)
    requires points == front + [p] && PointsOk(pr, m, points)
    ensures PointsOk(pr, m, front)
  {
    assert forall i :: 0 <= i < |front| ==> front[i] == points[i];
  }

  lemma OneMorePoint(
    pr: Printer, m: Metric, name: string, front: seq<Named<Point>>, p: Named<Point>, points: seq<Named<Point>>)
    requires points == front + [p] && Tame(pr) && PointsOk(pr, m, points)
    requires AllDistinct(SamplesOf(pr, name, front)) <==> AllTellApart(ValuesOf(front))
    requires forall s :: s in SamplesOf(pr, name, front) ==> FromPoint(pr, m.kind, front, s)
    ensures AllDistinct(SamplesOf(pr, name, points)) <==> AllTellApart(ValuesOf(points))
    ensures forall s :: s in SamplesOf(pr, name, points) ==> FromPoint(pr, m.kind, points, s)
  {
    var before, more := SamplesOf(pr, name, front), PointSamples(pr, name, LabelList(pr, p.value), p.value.value);
    assert points[..|front|] == front && points[|front|] == p;
    PointSamplesDiffer(pr, m, name, p);
    PointsApart(pr, m, front, p, before, more);
    DistinctAppend(before, more);
    ValuesPush(front, p);
    FromPointGrows(pr, m.kind, front, p, before, more);
  }

  lemma PointsApart(
    pr: Printer, m: Metric, front: seq<Named<Point>>, p: Named<Point>, before: seq<Sample>, more: seq<Sample>)
    requires PointsOk(pr, m, front + [p])
    requires forall s :: s in before ==> FromPoint(pr, m.kind, front, s)
    requires forall s :: s in more ==> PointMap(m.kind, s) == ToMap(LabelList(pr, p.value))
    ensures forall s, t :: s in before && t in more ==> !Same(s, t)
  {
    forall s, t | s in before && t in more ensures !Same(s, t) {
      var points := front + [p];
      var i :| 0 <= i < |front| && PointMap(m.kind, s) == ToMap(LabelList(pr, front[i].value));
      assert front[i] == points[i] && points[i].name != points[|front|].name;
      MapsDiffer(pr, m, points[i], p);
    }
  }

  lemma FromPointGrows(
    pr: Printer, kind: Kind, front: seq<Named<Point>>, p: Named<Point>, before: seq<Sample>, more: seq<Sample>)
    requires forall s :: s in before ==> FromPoint(pr, kind, front, s)
    requires forall s :: s in more ==> PointMap(kind, s) == ToMap(LabelList(pr, p.value))
    ensures forall s :: s in before + more ==> FromPoint(pr, kind, front + [p], s)
  {
    var points := front + [p];
    forall s | s in before + more ensures FromPoint(pr, kind, points, s) {
      if s in before {
        var i :| 0 <= i < |front| && PointMap(kind, s) == ToMap(LabelList(pr, front[i].value));
        assert points[i] == front[i];
      } else {
        assert PointMap(kind, s) == ToMap(LabelList(pr, points[|front|].value));
      }
    }
  }

  lemma ValuesPush(front: seq<Named<Point>>, p: Named<Point>)
    ensures ValuesOf(front + [p]) == ValuesOf(front) + [p.value]
    ensures AllTellApart(ValuesOf(front + [p])) <==> AllTellApart(ValuesOf(front)) && TellsApart(p.value.value)
  {
  }

  // ---------------------------------------------------------------- names and readability

  /** The sample names a family may emit. */
  function Emits(kind: Kind, name: string): seq<string> {
    if kind.Histogram? then [name, name + "_bucket", name + "_sum", name + "_count"] else [name]
  }

  predicate SampleOk(s: Sample) {
    NameOk(s.name, true) && NamesOk(s.labels) && '\n' !in s.value
  }

  lemma {:induction false} LabelsStayOnTheLine(ls: seq<Label>)
    requires NamesOk(ls)
    ensures Readable(ls) && '\n' !in PrintLabels(ls)
  {
    if |ls| > 0 {
      EscapedStaysOnTheLine(ls[0].value, true);
      assert '\n' !in ls[0].name && '=' !in ls[0].name;
      assert '\n' !in PrintLabel(ls[0]);
      LabelsStayOnTheLine(ls[1..]);
      forall i | 0 <= i < |ls| ensures '=' !in ls[i].name {
        assert NameOk(ls[i].name, false);
      }
    }
  }

  lemma SampleReads(s: Sample)
    requires SampleOk(s)
    ensures ReadSample(PrintSample(s)) == Some(s) && '\n' !in PrintSample(s) && !("#" <= PrintSample(s))
  {
    LabelsStayOnTheLine(s.labels);
    ReadSampleInverts(s);
    assert PrintSample(s)[0] == s.name[0];
    assert '\n' !in Braced(PrintLabels(s.labels));
    assert '\n' !in s.name;
  }

  lemma NumberIsOnALine(pr: Printer, n: Number)
    requires Tame(pr)
    ensures '\n' !in WriteNumber(pr, n)
  {
    if n.Finite? {
      assert Plain(pr.digits(n.rank));
    }
  }

  lemma NameWith(name: string, suffix: string)
    requires NameOk(name, true) && forall i :: 0 <= i < |suffix| ==> NameChar(suffix[i], true)
    ensures NameOk(name + suffix, true)
  {
  }

  lemma PointSamplesAreOk(pr: Printer, kind: Kind, name: string, ls: seq<Label>, v: PointValue)
    requires Tame(pr) && NameOk(name, true) && NamesOk(ls) && (v.Buckets? <==> kind.Histogram?)
    ensures forall s :: s in PointSamples(pr, name, ls, v) ==> SampleOk(s) && s.name in Emits(kind, name)
  {
    if v.Buckets? {
      HistogramSamplesAreOk(pr, name, ls, v.histogram);
    } else {
      NumberIsOnALine(pr, v.number);
    }
  }

  lemma HistogramSamplesAreOk(pr: Printer, name: string, ls: seq<Label>, h: HistogramValue)
    requires Tame(pr) && NameOk(name, true) && NamesOk(ls)
    ensures forall s :: s in HistogramSamples(pr, name, ls, h) ==> SampleOk(s) && s.name in Emits(Histogram, name)
  {
    NameWith(name, "_bucket");
    NameWith(name, "_sum");
    NameWith(name, "_count");
    NumberIsOnALine(pr, h.sum);
    assert Plain(pr.decimal(h.count));
    BucketSampleAt(pr, name, ls, h, |h.boundaries|);
    forall s | s in BucketSamples(pr, name, ls, h, |h.boundaries|) ensures SampleOk(s) && s.name == name + "_bucket" {
      var i :| 0 <= i < |h.boundaries| && s == BucketSamples(pr, name, ls, h, |h.boundaries|)[i];
      assert Plain(pr.decimal(Cumulative(h.bucketCounts, i + 1)));
    }
  }

  lemma {:induction false} FamilySamplesAreOk(pr: Printer, m: Metric, name: string, points: seq<Named<Point>>)
    requires Tame(pr) && NameOk(name, true) && PointsOk(pr, m, points)
    ensures forall s :: s in SamplesOf(pr, name, points) ==> SampleOk(s) && s.name in Emits(m.kind, name)
  {
    if |points| > 0 {
      var p := points[|points| - 1];
      FamilySamplesAreOk(pr, m, name, points[..|points| - 1]);
      PointSamplesAreOk(pr, m.kind, name, LabelList(pr, p.value), p.value.value);
    }
  }

  // ---------------------------------------------------------------- reading lines back

  lemma {:induction false} ReadSamplesAppends(a: seq<string>, b: seq<string>)
    requires ReadSamples(a).Some? && ReadSamples(b).Some?
    ensures ReadSamples(a + b) == Some(ReadSamples(a).value + ReadSamples(b).value)
  {
    if |a| == 0 {
      assert a + b == b;
      assert [] + ReadSamples(b).value == ReadSamples(b).value;
    } else {
      assert (a + b)[1..] == a[1..] + b;
      assert ReadSamples(a[1..]).Some?;
      ReadSamplesAppends(a[1..], b);
      var s, x, y := ReadSample(a[0]), ReadSamples(a[1..]).value, ReadSamples(b).value;
      if !("#" <= a[0]) {
        assert [s.value] + (x + y) == ([s.value] + x) + y;
      }
    }
  }

  lemma SampleLinesTail(samples: seq<Sample>)
    requires |samples| > 0
    ensures SampleLines(samples)[0] == PrintSample(samples[0]) && SampleLines(samples)[1..] == SampleLines(samples[1..])
  {
  }

  lemma {:induction false} SamplesRead(samples: seq<Sample>)
    requires forall s :: s in samples ==> SampleOk(s)
    ensures ReadSamples(SampleLines(samples)) == Some(samples)
  {
    if |samples| > 0 {
      assert samples[0] in samples;
      SampleReads(samples[0]);
      SamplesRead(samples[1..]);
      SampleLinesTail(samples);
      HeadAndTail(samples);
    }
  }

  lemma SamplesAreLines(samples: seq<Sample>)
    requires forall s :: s in samples ==> SampleOk(s)
    ensures forall i :: 0 <= i < |samples| ==> '\n' !in SampleLines(samples)[i]
  {
    forall i | 0 <= i < |samples| ensures '\n' !in SampleLines(samples)[i] {
      assert samples[i] in samples;
      SampleReads(samples[i]);
    }
  }

  lemma HeaderReads(m: Metric, name: string)
    requires NameOk(name, true)
    ensures ReadSamples(Header(m, name)) == Some([])
    ensures forall i :: 0 <= i < |Header(m, name)| ==> '\n' !in Header(m, name)[i]
  {
    EscapedStaysOnTheLine(m.id.description, false);
    assert '\n' !in name;
    forall i | 0 <= i < |Header(m, name)| ensures '\n' !in Header(m, name)[i] && "#" <= Header(m, name)[i] {
    }
    CommentsRead(Header(m, name));
  }

  lemma {:induction false} CommentsRead(lines: seq<string>)
    requires forall i :: 0 <= i < |lines| ==> "#" <= lines[i]
    ensures ReadSamples(lines) == Some([])
  {
    if |lines| > 0 {
      CommentsRead(lines[1..]);
    }
  }

  // ---------------------------------------------------------------- a family's text

  function FamilyLines(pr: Printer, m: Metric, name: string, points: seq<Named<Point>>): seq<string> {
    Header(m, name) + SampleLines(SamplesOf(pr, name, points))
  }

  function FamilySamples(pr: Printer, m: Metric): seq<Sample>
    requires FamilyText(pr, m).Ok?
  {
    SamplesOf(pr, FamilyName(m).value, Arranged(pr, m).value)
  }

  /** The text consists of these lines, which read back as these samples. */
  predicate ReadsAs(text: string, lines: seq<string>, samples: seq<Sample>) {
    && text == JoinLines(lines)
    && (forall i :: 0 <= i < |lines| ==> '\n' !in lines[i])
    && ReadSamples(lines) == Some(samples)
  }

  lemma TextsJoin(a: string, la: seq<string>, s: seq<Sample>, b: string, lb: seq<string>, t: seq<Sample>)
    requires ReadsAs(a, la, s) && ReadsAs(b, lb, t)
    ensures ReadsAs(a + b, la + lb, s + t)
  {
    JoinLinesAppends(la, lb);
    ReadSamplesAppends(la, lb);
  }

  /** A rendered family: its text is lines that read back as its samples, whose names the family may emit, and
      which all differ exactly when its points tell their boundaries apart. */
  lemma FamilyReadsBack(pr: Printer, m: Metric) returns (lines: seq<string>)
    requires Tame(pr) && MetricOk(m) && FamilyText(pr, m).Ok?
    ensures ReadsAs(FamilyText(pr, m).value, lines, FamilySamples(pr, m))
    ensures AllDistinct(FamilySamples(pr, m)) <==> AllTellApart(m.points)
    ensures forall s :: s in FamilySamples(pr, m) ==> s.name in Emits(m.kind, FamilyName(m).value)
  {
    var name, points, samples := FamilyName(m).value, Arranged(pr, m).value, FamilySamples(pr, m);
    PointsAreOk(pr, m);
    FamilyNameIsOk(m);
    FamilySamplesDiffer(pr, m, name, points);
    FamilySamplesAreOk(pr, m, name, points);
    lines := FamilyLines(pr, m, name, points);
    LinesRead(m, name, samples);
  }

  lemma PointsAreOk(pr: Printer, m: Metric)
    requires MetricOk(m) && Arranged(pr, m).Ok?
    ensures PointsOk(pr, m, Arranged(pr, m).value)
    ensures AllTellApart(ValuesOf(Arranged(pr, m).value)) <==> AllTellApart(m.points)
  {
    ArrangedIsOk(pr, m);
    ArrangedIsComplete(pr, m);
  }

  lemma LinesRead(m: Metric, name: string, samples: seq<Sample>)
    requires NameOk(name, true) && forall s :: s in samples ==> SampleOk(s)
    ensures var lines := Header(m, name) + SampleLines(samples);
            && JoinLines(lines) == JoinLines(Header(m, name)) + PrintAll(samples)
            && ReadSamples(lines) == Some(samples)
            && forall i :: 0 <= i < |lines| ==> '\n' !in lines[i]
  {
    SamplesRead(samples);
    SamplesAreLines(samples);
    HeaderReads(m, name);
    JoinLinesAppends(Header(m, name), SampleLines(samples));
    ReadSamplesAppends(Header(m, name), SampleLines(samples));
  }
}
