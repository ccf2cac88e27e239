/** From recorded values to the parsed text: what a successful scrape says about every cell of its sources. */
module PrometheusSays {
  import opened Wrappers
  import H = Histogram
  import opened HistogramDelta
  import opened Model
  import opened Exposition
  import opened PrometheusLabels
  import opened PrometheusRender
  import opened PrometheusPoints
  import opened PrometheusCollector
  import opened HistogramLines
  import opened PrometheusScrape

  lemma {:induction false} ConvertedHolds<A>(
    visited: seq<(seq<KeyValue>, A)>, convert: A -> Result<PointValue, Error>, v: nat)
    requires ConvertAll(visited, convert).Ok? && v < |visited|
    ensures convert(visited[v].1).Ok?
    ensures Point(visited[v].0, convert(visited[v].1).value) in ConvertAll(visited, convert).value
  {
    if v < |visited| - 1 {
      ConvertedHolds(visited[..|visited| - 1], convert, v);
    }
  }

  /** The cell shown at place `v` of a source's visit is offered as a point under the source's family name. */
  lemma ShownIsOffered<A>(
    sources: seq<Source>, i: nat, visited: seq<(seq<KeyValue>, A)>, id: NameIdentity, kind: Kind,
    convert: A -> Result<PointValue, Error>, v: nat) returns (name: string, p: Point)
    requires MergeAll(sources).Ok? && i < |sources| && v < |visited|
    requires sources[i] == Scraped(visited, id, kind, convert)
    ensures FamilyName(Metric(id, kind, [])) == Ok(name)
    ensures Offered(sources, name, p) && p.attrs == visited[v].0 && convert(visited[v].1) == Ok(p.value)
  {
    MergedNames(sources, i);
    ConvertedHolds(visited, convert, v);
    name, p := FamilyName(sources[i].value.value).value, Point(visited[v].0, convert(visited[v].1).value);
    assert Offers(sources[i], name, p);
  }

  /** The samples of an offered point are in the parsed text, under the labels of its attributes. */
  lemma OfferedIsSaid(pr: Printer, sources: seq<Source>, name: string, p: Point, samples: seq<Sample>)
      returns (ls: seq<Label>)
    requires ScrapeText(pr, sources).Ok? && Offered(sources, name, p)
    requires forall s :: s in samples <==> PrintedBySource(pr, sources, s)
    ensures Describes(pr.show, p.attrs, ls)
    ensures forall k: nat, s :: IsLine(pr, name, ls, p.value, k, s) ==> s in samples
  {
    var families := MergeAll(sources).value;
    MergeAllHolds(sources, name, p);
    HoldsByMembers(families, name, p);
    var f :| f in families && f.name == name && p in f.value.points;
    EveryFamilyHasText(pr, families, f);
    RenderedLabels(pr, f.value, p);
    ls := LabelList(pr, p);
    forall k: nat, s | IsLine(pr, name, ls, p.value, k, s) ensures s in samples {
      assert Prints(pr, name, p, s);
      assert PrintedBySource(pr, sources, s);
    }
  }

  lemma RenderedLabels(pr: Printer, m: Metric, p: Point)
    requires FamilyText(pr, m).Ok? && p in m.points
    ensures Describes(pr.show, p.attrs, LabelList(pr, p))
  {
    LabelAllIsPointwise(Labeller(pr, m), m.points, |m.points|);
    var k :| 0 <= k < |m.points| && m.points[k] == p;
    assert LabelString(pr, m, p).Ok?;
    RendersIff(pr.show, m.id.name, p.attrs, Reserved(p.value));
    ListDescribes(pr.show, p.attrs);
  }

  /** In the parsed text of every successful scrape, for every counter or gauge among its sources and each of its
      attribute sets, there is the sample with the family name, the labels of the attributes, and the cell's value. */
  lemma ScrapeSaysTheScalars(
    pr: Printer, sources: seq<Source>, i: nat, id: NameIdentity, kind: Kind, toNumber: int -> Number,
    visited: seq<(seq<KeyValue>, int)>, v: nat) returns (samples: seq<Sample>, s: Sample)
    requires Tame(pr) && ScrapeText(pr, sources).Ok? && forall k :: 0 <= k < |sources| ==> SourceOk(sources[k])
    requires i < |sources| && sources[i] == Scraped(visited, id, kind, ScalarPoint(toNumber)) && v < |visited|
    ensures Parse(ScrapeText(pr, sources).value) == Some(samples) && s in samples
    ensures FamilyName(Metric(id, kind, [])) == Ok(s.name) && Describes(pr.show, visited[v].0, s.labels)
    ensures match toNumber(visited[v].1)
            case Finite(rank) => s.value == pr.digits(rank)
            case PosInf => s.value == "+Inf"
            case NegInf => s.value == "-Inf"
            case NaN => s.value == "NaN"
  {
    samples := ScrapeIsUnambiguous(pr, sources);
    var name, p := ShownIsOffered(sources, i, visited, id, kind, ScalarPoint(toNumber), v);
    var ls := OfferedIsSaid(pr, sources, name, p, samples);
    var samplesOfPoint := PointSamples(pr, name, ls, p.value);
    SamplesAreLines(pr, name, ls, p.value);
    s := samplesOfPoint[0];
    assert IsLine(pr, name, ls, p.value, 0, s);
  }

  /** For every add-only histogram: the line of each boundary says exactly how many recorded values are at most that
      boundary, the `+Inf` line and the `_count` line say how many there are, and the `_sum` line says what they add up
      to, as the cell holds it. */
  lemma ScrapeSaysTheCounts(
    pr: Printer, sources: seq<Source>, i: nat, id: NameIdentity, toNumber: int -> Number, lo: int, b: seq<int>,
    visited: seq<(seq<KeyValue>, seq<H.Write>)>, v: nat)
      returns (samples: seq<Sample>, name: string, ls: seq<Label>, lines: seq<Sample>)
    requires Tame(pr) && ScrapeText(pr, sources).Ok? && forall k :: 0 <= k < |sources| ==> SourceOk(sources[k])
    requires i < |sources| && v < |visited|
    requires sources[i] == Scraped(visited, id, Histogram, HistogramPoint(id.name, toNumber, lo, b))
    requires H.CheckedBoundaries(b) && Countable(visited[v].1)
    ensures Parse(ScrapeText(pr, sources).value) == Some(samples)
    ensures FamilyName(Metric(id, Histogram, [])) == Ok(name) && Describes(pr.show, visited[v].0, ls)
    ensures |lines| == |b| + 3 && forall k :: 0 <= k < |lines| ==>
              lines[k] in samples && IsLineOfLog(pr, name, ls, toNumber, lo, b, visited[v].1, k, lines[k])
  {
    var p: Point;
    samples := ScrapeIsUnambiguous(pr, sources);
    name, p := ShownIsOffered(sources, i, visited, id, Histogram, HistogramPoint(id.name, toNumber, lo, b), v);
    ls := OfferedIsSaid(pr, sources, name, p, samples);
    lines := PointSamples(pr, name, ls, p.value);
    SamplesAreLines(pr, name, ls, p.value);
    ConvertedAt(id.name, toNumber, b);
    forall k | 0 <= k < |lines|
      ensures lines[k] in samples && IsLineOfLog(pr, name, ls, toNumber, lo, b, visited[v].1, k, lines[k])
    {
      LinesPrintTheCounts(pr, name, ls, id.name, toNumber, lo, b, visited[v].1, k, lines[k]);
    }
  }
}
