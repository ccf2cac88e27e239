/** Rendering one metric family: its header lines and its samples, histograms cumulatively. */
module PrometheusRender {
  import opened Wrappers
  import opened Measure
  import opened Model
  import opened Ordering
  import opened NamedLists
  import opened Exposition
  import opened PrometheusLabels

  /** A double; finite ones by their rank in the order of doubles. */
  datatype Number = Finite(rank: int) | PosInf | NegInf | NaN

  datatype Kind = Counter | Gauge | Histogram

  datatype NameIdentity = NameIdentity(name: string, description: string, units: string)

  datatype HistogramValue = HistogramValue(boundaries: seq<Number>, bucketCounts: seq<int>, count: int, sum: Number)

  datatype PointValue = Scalar(number: Number) | Buckets(histogram: HistogramValue)

  datatype Point = Point(attrs: seq<KeyValue>, value: PointValue)

  datatype Metric = Metric(id: NameIdentity, kind: Kind, points: seq<Point>)

  /** How values, finite doubles and counts are displayed. */
  datatype Printer = Printer(show: Value -> string, digits: int -> string, decimal: int -> string)

  predicate Plain(s: string) {
    '\\' !in s && '"' !in s && '\n' !in s
  }

  /** Printed numbers are plain, none is spelled like infinity, and different doubles print differently. */
  ghost predicate Tame(pr: Printer) {
    && (forall n :: Plain(pr.digits(n)) && pr.digits(n) != "+Inf")
    && (forall m, n :: pr.digits(m) == pr.digits(n) ==> m == n)
    && (forall n :: Plain(pr.decimal(n)))
  }

  function WriteNumber(pr: Printer, n: Number): string {
    match n
    case Finite(r) => pr.digits(r)
    case PosInf => "+Inf"
    case NegInf => "-Inf"
    case NaN => "NaN"
  }

  function KindText(k: Kind): string {
    match k
    case Counter => "counter"
    case Gauge => "gauge"
    case Histogram => "histogram"
  }

  predicate EndsWith(s: string, suffix: string) {
    |suffix| <= |s| && s[|s| - |suffix|..] == suffix
  }

  /** The family name: sanitized, and for counters with `_total` at the end. */
  function FamilyName(m: Metric): Result<string, Error> {
    if m.id.name == "" then Err(EmptyMetricName)
    else
      var name := Cleaned(m.id.name, true);
      Ok(if m.kind.Counter? && !EndsWith(name, "_total") then name + "_total" else name)
  }

  predicate Suffixed(s: string, name: string) {
    && |name| >= 6 && name[|name| - 6..] == "_total"
    && Replaces(s, true, name[..|name| - 6]) && !EndsWith(name[..|name| - 6], "_total")
  }

  /** Only the empty name has no family name. A family name is well-formed; it is the sanitized name, but for a counter
      whose name does not end in `_total`, which gets that suffix once. */
  lemma FamilyNameIsOk(m: Metric)
    ensures FamilyName(m) == Err(EmptyMetricName) <==> m.id.name == ""
    ensures FamilyName(m).Err? ==> m.id.name == ""
    ensures FamilyName(m).Ok? ==>
      var name := FamilyName(m).value;
      && NameOk(name, true)
      && (m.kind.Counter? ==> EndsWith(name, "_total"))
      && (Replaces(m.id.name, true, name) || (m.kind.Counter? && Suffixed(m.id.name, name)))
  {
    if m.id.name != "" {
      MetricNamesAreSanitized(m.id.name);
      CleanedCharacters(m.id.name, true);
      TotalSuffix(Cleaned(m.id.name, true));
    }
  }

  lemma TotalSuffix(clean: string)
    requires NameOk(clean, true)
    ensures var name := clean + "_total";
            |name| >= 6 && name[|name| - 6..] == "_total" && name[..|name| - 6] == clean && NameOk(name, true)
  {
  }

  // ---------------------------------------------------------------- samples of one point

  function SaturatingAdd(x: int, y: int): int {
    if x + y >= TWO_TO_THE_64 then TWO_TO_THE_64 - 1 else x + y
  }

  /** The running total printed for the first `k` buckets; missing counts are zero. */
  function Cumulative(counts: seq<int>, k: nat): int {
    if k == 0 then 0 else SaturatingAdd(Cumulative(counts, k - 1), if k - 1 < |counts| then counts[k - 1] else 0)
  }

  function BucketSample(name: string, ls: seq<Label>, le: string, value: string): Sample {
    Sample(name + "_bucket", ls + [Named("le", le)], value)
  }

  function BucketSamples(pr: Printer, name: string, ls: seq<Label>, h: HistogramValue, k: nat): seq<Sample>
    requires k <= |h.boundaries|
  {
    if k == 0 then []
    else
      BucketSamples(pr, name, ls, h, k - 1) +
      [BucketSample(name, ls, WriteNumber(pr, h.boundaries[k - 1]), pr.decimal(Cumulative(h.bucketCounts, k)))]
  }

  function HistogramSamples(pr: Printer, name: string, ls: seq<Label>, h: HistogramValue): seq<Sample> {
    BucketSamples(pr, name, ls, h, |h.boundaries|) +
    [BucketSample(name, ls, "+Inf", pr.decimal(h.count)),
     Sample(name + "_sum", ls, WriteNumber(pr, h.sum)),
     Sample(name + "_count", ls, pr.decimal(h.count))]
  }

  function PointSamples(pr: Printer, name: string, ls: seq<Label>, v: PointValue): seq<Sample> {
    match v
    case Scalar(n) => [Sample(name, ls, WriteNumber(pr, n))]
    case Buckets(h) => HistogramSamples(pr, name, ls, h)
  }

  function SampleLines(samples: seq<Sample>): seq<string> {
    seq(|samples|, i requires 0 <= i < |samples| => PrintSample(samples[i]))
  }

  function PrintAll(samples: seq<Sample>): string {
    JoinLines(SampleLines(samples))
  }

  lemma PrintAllPush(samples: seq<Sample>, s: Sample)
    ensures PrintAll(samples + [s]) == PrintAll(samples) + (PrintSample(s) + "\n")
  {
    assert SampleLines(samples + [s]) == SampleLines(samples) + [PrintSample(s)];
    JoinLinesAppends(SampleLines(samples), [PrintSample(s)]);
    assert JoinLines([PrintSample(s)]) == PrintSample(s) + "\n" + "";
  }

  // ---------------------------------------------------------------- the pushes behind them

  method WriteScalar(name: string, labels: string, ghost ls: seq<Label>, value: string, out: string) returns (r: string)
    requires labels == PrintLabels(ls)
    ensures r == out + (PrintSample(Sample(name, ls, value)) + "\n")
  {
    r := out + name;
    if labels != "" {
      r := r + ("{" + labels + "}");
      Assoc(out, name, Braced(labels));
    }
    r := r + " ";
    Assoc(out, name + Braced(labels), " ");
    r := r + value;
    Assoc(out, name + Braced(labels) + " ", value);
    r := r + "\n";
    Assoc(out, name + Braced(labels) + " " + value, "\n");
  }

  /** The pieces of a bucket line make up the printed sample. */
  lemma BucketLine(name: string, ls: seq<Label>, le: string, value: string)
    requires Plain(le) && (PrintLabels(ls) == "" <==> ls == [])
    ensures var labels := PrintLabels(ls);
            name + "_bucket{" + Front(labels) + "le=\"" + le + "\"} " + value ==
            PrintSample(BucketSample(name, ls, le, value))
  {
    WithLe(ls, le);
    BracePieces(name, Front(PrintLabels(ls)), le);
  }

  function Front(labels: string): string {
    if labels == "" then "" else labels + ","
  }

  lemma WithLe(ls: seq<Label>, le: string)
    requires Plain(le) && (PrintLabels(ls) == "" <==> ls == [])
    ensures PrintLabels(ls + [Named("le", le)]) == Front(PrintLabels(ls)) + ("le=\"" + le + "\"")
  {
    PlainIsNotEscaped(le);
    PrintLabelsPush(ls, Named("le", le));
    assert "le" + "=\"" == "le=\"";
    if ls == [] {
      assert PrintLabels(ls) + "" == "";
    }
  }

  lemma BracePieces(name: string, front: string, le: string)
    ensures name + "_bucket{" + front + "le=\"" + le + "\"} " ==
        name + "_bucket" + Braced(front + ("le=\"" + le + "\"")) + " "
  {
    var pair := "le=\"" + le + "\"";
    var open := name + "_bucket{";
    assert open == name + "_bucket" + "{";
    Assoc(open, front, "le=\"");
    Assoc(open, front + "le=\"", le);
    Assoc(open, front + "le=\"" + le, "\"} ");
    Assoc(front, "le=\"", le);
    Assoc(front, "le=\"" + le, "\"} ");
    assert "le=\"" + le + "\"} " == pair + "} ";
    Assoc(front, pair, "} ");
    Assoc(open, front + pair, "} ");
    Assoc(name + "_bucket", "{", front + pair);
    Assoc(name + "_bucket", "{" + (front + pair), "}");
    assert "} " == "}" + " ";
    Assoc(open + (front + pair), "}", " ");
  }

  method OpenBucket(name: string, labels: string, out: string) returns (r: string)
    ensures r == out + (name + "_bucket{" + Front(labels))
  {
    r := out + name;
    r := r + "_bucket{";
    Assoc(out, name, "_bucket{");
    ghost var line := name + "_bucket{";
    if labels != "" {
      r := r + labels;
      r := r + ",";
      Assoc(out, line, labels);
      Assoc(out, line + labels, ",");
      Assoc(line, labels, ",");
    }
  }

  method WriteBucket(name: string, labels: string, ghost ls: seq<Label>, le: string, value: string, out: string)
      returns (r: string)
    requires labels == PrintLabels(ls) && Plain(le) && (labels == "" <==> ls == [])
    ensures r == out + (PrintSample(BucketSample(name, ls, le, value)) + "\n")
  {
    r := OpenBucket(name, labels, out);
    ghost var line := name + "_bucket{" + Front(labels);
    r := r + "le=\"";
    Assoc(out, line, "le=\"");
    r := r + le;
    Assoc(out, line + "le=\"", le);
    r := r + "\"} ";
    Assoc(out, line + "le=\"" + le, "\"} ");
    r := r + value;
    Assoc(out, line + "le=\"" + le + "\"} ", value);
    BucketLine(name, ls, le, value);
    r := r + "\n";
    Assoc(out, PrintSample(BucketSample(name, ls, le, value)), "\n");
  }

  method WriteHistogram(pr: Printer, name: string, labels: string, ghost ls: seq<Label>, h: HistogramValue, out: string)
      returns (r: string)
    requires labels == PrintLabels(ls) && (labels == "" <==> ls == []) && Tame(pr)
    ensures r == out + PrintAll(HistogramSamples(pr, name, ls, h))
  {
    NumbersArePlain(pr, h.boundaries);
    r := WriteBuckets(pr, name, labels, ls, h, out);
    r := WriteTotals(pr, name, labels, ls, h, out, BucketSamples(pr, name, ls, h, |h.boundaries|), r);
  }

  method WriteBuckets(pr: Printer, name: string, labels: string, ghost ls: seq<Label>, h: HistogramValue, out: string)
      returns (r: string)
    requires labels == PrintLabels(ls) && (labels == "" <==> ls == [])
    requires forall i :: 0 <= i < |h.boundaries| ==> Plain(WriteNumber(pr, h.boundaries[i]))
    ensures r == out + PrintAll(BucketSamples(pr, name, ls, h, |h.boundaries|))
  {
    r := out;
    var cumulative := 0;
    for idx := 0 to |h.boundaries|
      invariant cumulative == Cumulative(h.bucketCounts, idx)
      invariant r == out + PrintAll(BucketSamples(pr, name, ls, h, idx))
    {
      cumulative := Grow(h.bucketCounts, idx, cumulative);
      ghost var before := BucketSamples(pr, name, ls, h, idx);
      r := WriteNext(name, labels, ls, WriteNumber(pr, h.boundaries[idx]), pr.decimal(cumulative), out, before, r);
    }
  }

  method Grow(counts: seq<int>, idx: nat, cumulative: int) returns (r: int)
    requires cumulative == Cumulative(counts, idx)
    ensures r == Cumulative(counts, idx + 1)
  {
    r := SaturatingAdd(cumulative, if idx < |counts| then counts[idx] else 0);
  }

  method WriteNext(name: string, labels: string, ghost ls: seq<Label>, le: string, value: string,
                   ghost start: string, ghost before: seq<Sample>, out: string) returns (r: string)
    requires labels == PrintLabels(ls) && (labels == "" <==> ls == []) && Plain(le) && out == start + PrintAll(before)
    ensures r == start + PrintAll(before + [BucketSample(name, ls, le, value)])
  {
    r := WriteBucket(name, labels, ls, le, value, out);
    ghost var _ := Pushed(start, before, BucketSample(name, ls, le, value));
  }

  lemma NumbersArePlain(pr: Printer, ns: seq<Number>)
    requires Tame(pr)
    ensures forall i :: 0 <= i < |ns| ==> Plain(WriteNumber(pr, ns[i]))
  {
  }

  /** The `+Inf` bucket, the sum and the count. */
  method WriteTotals(pr: Printer, name: string, labels: string, ghost ls: seq<Label>, h: HistogramValue,
                     ghost start: string, ghost before: seq<Sample>, out: string) returns (r: string)
    requires labels == PrintLabels(ls) && (labels == "" <==> ls == []) && out == start + PrintAll(before)
    requires before == BucketSamples(pr, name, ls, h, |h.boundaries|)
    ensures r == start + PrintAll(HistogramSamples(pr, name, ls, h))
  {
    r := WriteBucket(name, labels, ls, "+Inf", pr.decimal(h.count), out);
    ghost var a := Pushed(start, before, BucketSample(name, ls, "+Inf", pr.decimal(h.count)));
    r := WriteScalar(name + "_sum", labels, ls, WriteNumber(pr, h.sum), r);
    ghost var b := Pushed(start, a, Sample(name + "_sum", ls, WriteNumber(pr, h.sum)));
    r := WriteScalar(name + "_count", labels, ls, pr.decimal(h.count), r);
    ghost var c := Pushed(start, b, Sample(name + "_count", ls, pr.decimal(h.count)));
    assert c == HistogramSamples(pr, name, ls, h);
  }

  /** One more printed sample behind what was printed so far. */
  lemma Pushed(out: string, samples: seq<Sample>, s: Sample) returns (more: seq<Sample>)
    ensures more == samples + [s]
    ensures out + PrintAll(samples) + (PrintSample(s) + "\n") == out + PrintAll(more)
  {
    more := samples + [s];
    PrintAllPush(samples, s);
    Assoc(out, PrintAll(samples), PrintSample(s) + "\n");
  }

  // ---------------------------------------------------------------- one family

  /** `le` is generated for histograms, and reserved there alone. */
  function Reserved(v: PointValue): seq<string> {
    if v.Scalar? then [] else ["le"]
  }

  function LabelString(pr: Printer, m: Metric, p: Point): Result<string, Error> {
    RenderLabels(pr.show, m.id.name, p.attrs, Reserved(p.value))
  }

  /** Every point with its label string, or the first error. */
  function LabelAll(f: Point -> Result<string, Error>, points: seq<Point>, n: nat): Result<seq<Named<Point>>, Error>
    requires n <= |points|
  {
    if n == 0 then Ok([])
    else
      var front := LabelAll(f, points, n - 1);
      if front.Err? then front
      else if f(points[n - 1]).Err? then Err(f(points[n - 1]).error)
      else Ok(front.value + [Named(f(points[n - 1]).value, points[n - 1])])
  }

  function Labeller(pr: Printer, m: Metric): Point -> Result<string, Error> {
    (p: Point) => LabelString(pr, m, p)
  }

  function Labelled(pr: Printer, m: Metric): Result<seq<Named<Point>>, Error> {
    LabelAll(Labeller(pr, m), m.points, |m.points|)
  }

  /** The points sorted by label string, or the error. */
  function Arranged(pr: Printer, m: Metric): Result<seq<Named<Point>>, Error> {
    var labelled := Labelled(pr, m);
    if labelled.Err? then labelled
    else
      var sorted := SortByName(labelled.value);
      if FirstRepeat(sorted).Some? then Err(DuplicateSeries(FirstRepeat(sorted).value, m.id.name)) else Ok(sorted)
  }

  function LabelList(pr: Printer, p: Point): seq<Label> {
    SortByName(LabelsOf(pr.show, p.attrs))
  }

  function SamplesOf(pr: Printer, name: string, points: seq<Named<Point>>): seq<Sample> {
    if |points| == 0 then []
    else
      var p := points[|points| - 1].value;
      SamplesOf(pr, name, points[..|points| - 1]) + PointSamples(pr, name, LabelList(pr, p), p.value)
  }

  function Header(m: Metric, name: string): seq<string> {
    (if m.id.description == "" then [] else ["# HELP " + name + " " + Escape(m.id.description, false)]) +
    ["# TYPE " + name + " " + KindText(m.kind)]
  }

  /** The text of a family: header, then samples. */
  function FamilyText(pr: Printer, m: Metric): Result<string, Error> {
    var name, points := FamilyName(m), Arranged(pr, m);
    if name.Err? then Err(name.error)
    else if points.Err? then Err(points.error)
    else Ok(JoinLines(Header(m, name.value)) + PrintAll(SamplesOf(pr, name.value, points.value)))
  }

  predicate NamesOk(ls: seq<Label>) {
    forall i :: 0 <= i < |ls| ==> NameOk(ls[i].name, false)
  }

  /** A family's label strings are those of its points, and they tell the points' label maps apart. */
  predicate PointOk(pr: Printer, m: Metric, p: Named<Point>) {
    && LabelString(pr, m, p.value) == Ok(p.name)
    && p.name == PrintLabels(LabelList(pr, p.value)) && (p.name == "" <==> LabelList(pr, p.value) == [])
    && SortedByName(LabelList(pr, p.value)) && Distinct(LabelList(pr, p.value)) && NamesOk(LabelList(pr, p.value))
    && (p.value.value.Buckets? ==> "le" !in NamesOf(LabelList(pr, p.value)))
  }

  lemma LabelledIsOk(pr: Printer, m: Metric, p: Point)
    requires LabelString(pr, m, p).Ok?
    ensures PointOk(pr, m, Named(LabelString(pr, m, p).value, p))
  {
    LabelsParseBack(pr.show, m.id.name, p.attrs, Reserved(p.value));
    ParseLabelsInverts(LabelList(pr, p));
    forall i | 0 <= i < |LabelList(pr, p)|
      ensures NameOk(LabelList(pr, p)[i].name, false) && (p.value.Buckets? ==> LabelList(pr, p)[i].name != "le")
    {
      assert LabelList(pr, p)[i] in LabelList(pr, p);
      assert p.value.Buckets? ==> "le" in Reserved(p.value);
    }
  }

  lemma {:induction false} LabelAllIsPointwise(f: Point -> Result<string, Error>, points: seq<Point>, n: nat)
    requires n <= |points| && LabelAll(f, points, n).Ok?
    ensures |LabelAll(f, points, n).value| == n
    ensures forall i :: 0 <= i < n ==>
              && LabelAll(f, points, n).value[i].value == points[i]
              && f(points[i]) == Ok(LabelAll(f, points, n).value[i].name)
  {
    if n > 0 {
      LabelAllIsPointwise(f, points, n - 1);
    }
  }

  /** A successful arrangement holds exactly the metric's points, each as often as it stands there. */
  lemma ArrangedIsComplete(pr: Printer, m: Metric)
    requires Arranged(pr, m).Ok?
    ensures multiset(ValuesOf(Arranged(pr, m).value)) == multiset(m.points)
    ensures forall p :: p in m.points <==> p in ValuesOf(Arranged(pr, m).value)
  {
    var labelled := Labelled(pr, m).value;
    LabelAllIsPointwise(Labeller(pr, m), m.points, |m.points|);
    assert ValuesOf(labelled) == m.points;
    SortValues((a: Named<Point>, b: Named<Point>) => NameLe(a, b), labelled);
    SameMembers(ValuesOf(Arranged(pr, m).value), m.points);
  }

  /** Its points are sorted by label string, and no two have the same. */
  lemma ArrangedIsOk(pr: Printer, m: Metric)
    requires Arranged(pr, m).Ok?
    ensures var points := Arranged(pr, m).value;
            && Distinct(points) && SortedByName(points) && |points| == |m.points|
            && (forall i :: 0 <= i < |points| ==> PointOk(pr, m, points[i]) && points[i].value in m.points)
  {
    var labelled, points := Labelled(pr, m).value, Arranged(pr, m).value;
    LabelAllIsPointwise(Labeller(pr, m), m.points, |m.points|);
    SortByNameSorts(labelled);
    NeighboursSuffice(points);
    forall i | 0 <= i < |points| ensures PointOk(pr, m, points[i]) && points[i].value in m.points {
      assert points[i] in labelled;
      var k :| 0 <= k < |labelled| && labelled[k] == points[i];
      assert LabelString(pr, m, points[i].value) == Ok(points[i].name);
      LabelledIsOk(pr, m, points[i].value);
    }
  }

  method Label(pr: Printer, m: Metric) returns (r: Result<seq<Named<Point>>, Error>)
    ensures r == Labelled(pr, m)
  {
    r := LabelEach(pr, m, Labeller(pr, m));
  }

  lemma LabelAllStep(f: Point -> Result<string, Error>, points: seq<Point>, i: nat, labels: Result<string, Error>)
    requires i < |points| && LabelAll(f, points, i).Ok? && labels == f(points[i])
    ensures labels.Err? ==> LabelAll(f, points, |points|) == Err(labels.error)
    ensures labels.Ok? ==>
        LabelAll(f, points, i + 1) == Ok(LabelAll(f, points, i).value + [Named(labels.value, points[i])])
  {
    if labels.Err? {
      LabelAllStops(f, points, i + 1, |points|);
    }
  }

  method LabelEach(pr: Printer, m: Metric, ghost f: Point -> Result<string, Error>)
      returns (r: Result<seq<Named<Point>>, Error>)
    requires Labels(f, pr, m)
    ensures r == LabelAll(f, m.points, |m.points|)
  {
    var points: seq<Named<Point>> := [];
    for i := 0 to |m.points|
      invariant LabelAll(f, m.points, i) == Ok(points)
    {
      var labels := LabelOne(pr, m, m.points[i], f);
      LabelAllStep(f, m.points, i, labels);
      if labels.Err? {
        return Err(labels.error);
      }
      points := points + [Named(labels.value, m.points[i])];
    }
    r := Ok(points);
  }

  ghost predicate Labels(f: Point -> Result<string, Error>, pr: Printer, m: Metric) {
    f == Labeller(pr, m)
  }

  method LabelOne(pr: Printer, m: Metric, p: Point, ghost f: Point -> Result<string, Error>)
      returns (r: Result<string, Error>)
    requires Labels(f, pr, m)
    ensures r == f(p)
  {
    r := Render(pr.show, m.id.name, p.attrs, Reserved(p.value));
  }

  lemma {:induction false} LabelAllStops(f: Point -> Result<string, Error>, points: seq<Point>, i: nat, n: nat)
    requires i <= n <= |points| && LabelAll(f, points, i).Err?
    ensures LabelAll(f, points, n) == LabelAll(f, points, i)
  {
    if i < n {
      LabelAllStops(f, points, i, n - 1);
    }
  }

  /** Either the whole family is appended to the text, or nothing is. */
  method RenderInto(pr: Printer, m: Metric, out: string) returns (r: Result<string, Error>)
    requires Tame(pr)
    ensures r == var t := FamilyText(pr, m); if t.Ok? then Ok(out + t.value) else t
  {
    var name := FamilyName(m);
    if name.Err? {
      return Err(name.error);
    }
    var labelled := Label(pr, m);
    if labelled.Err? {
      return Err(labelled.error);
    }
    var points := SortByName(labelled.value);
    var repeated := FirstRepeat(points);
    if repeated.Some? {
      return Err(DuplicateSeries(repeated.value, m.id.name));
    }
    var header := WriteHeader(m, name.value);
    var text := WritePoints(pr, m, name.value, points, out + header);
    Assoc(out, header, PrintAll(SamplesOf(pr, name.value, points)));
    r := Ok(text);
  }

  method WriteHeader(m: Metric, name: string) returns (r: string)
    ensures r == JoinLines(Header(m, name))
  {
    var last := "# TYPE " + name + " " + KindText(m.kind);
    assert JoinLines([last]) == last + "\n" + "";
    r := "";
    if m.id.description != "" {
      r := EscapeInto(m.id.description, false, "# HELP " + name + " ");
      r := r + "\n";
    }
    r := r + (last + "\n");
    assert m.id.description == "" ==> Header(m, name) == [last];
  }

  method WritePoints(pr: Printer, m: Metric, name: string, points: seq<Named<Point>>, out: string) returns (r: string)
    requires Tame(pr) && Arranged(pr, m) == Ok(points)
    ensures r == out + PrintAll(SamplesOf(pr, name, points))
  {
    ArrangedIsOk(pr, m);
    r := out;
    for i := 0 to |points|
      invariant r == out + PrintAll(SamplesOf(pr, name, points[..i]))
    {
      assert PointOk(pr, m, points[i]);
      r := WriteNextPoint(pr, name, points[i], out, SamplesOf(pr, name, points[..i]), r);
      assert points[..i + 1][..i] == points[..i];
    }
    assert points[..|points|] == points;
  }

  method WriteNextPoint(
    pr: Printer, name: string, p: Named<Point>, ghost start: string, ghost before: seq<Sample>, out: string)
      returns (r: string)
    requires Tame(pr) && out == start + PrintAll(before)
    requires p.name == PrintLabels(LabelList(pr, p.value)) && (p.name == "" <==> LabelList(pr, p.value) == [])
    ensures r == start + PrintAll(before + PointSamples(pr, name, LabelList(pr, p.value), p.value.value))
  {
    r := WritePoint(pr, name, p.name, LabelList(pr, p.value), p.value.value, out);
    PrintAllAppends(start, before, PointSamples(pr, name, LabelList(pr, p.value), p.value.value));
  }

  lemma SampleLinesAppend(a: seq<Sample>, b: seq<Sample>)
    ensures SampleLines(a + b) == SampleLines(a) + SampleLines(b)
  {
  }

  lemma PrintAllAppends(out: string, a: seq<Sample>, b: seq<Sample>)
    ensures out + PrintAll(a) + PrintAll(b) == out + PrintAll(a + b)
  {
    SampleLinesAppend(a, b);
    JoinLinesAppends(SampleLines(a), SampleLines(b));
    Assoc(out, PrintAll(a), PrintAll(b));
  }

  method WritePoint(pr: Printer, name: string, labels: string, ghost ls: seq<Label>, v: PointValue, out: string)
      returns (r: string)
    requires Tame(pr) && labels == PrintLabels(ls) && (labels == "" <==> ls == [])
    ensures r == out + PrintAll(PointSamples(pr, name, ls, v))
  {
    match v
    case Scalar(n) =>
      r := WriteScalar(name, labels, ls, WriteNumber(pr, n), out);
      assert PrintAll([]) == "";
      PrintAllPush([], Sample(name, ls, WriteNumber(pr, n)));
      assert [] + [Sample(name, ls, WriteNumber(pr, n))] == [Sample(name, ls, WriteNumber(pr, n))];
    case Buckets(h) =>
      r := WriteHistogram(pr, name, labels, ls, h, out);
  }
}
