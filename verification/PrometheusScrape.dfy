/** What a successful scrape says: every point of every source, nothing else, and no line twice unless boundaries
    collapse. */
module PrometheusScrape {
  import opened Wrappers
  import H = Histogram
  import opened Ordering
  import opened Model
  import opened Sequences
  import opened NamedLists
  import opened Exposition
  import opened PrometheusLabels
  import opened PrometheusRender
  import opened PrometheusUnique
  import opened PrometheusPoints
  import opened PrometheusCollector
  import opened HistogramLines

  type Source = Result<Option<Metric>, Error>

  // ---------------------------------------------------------------- which points a scrape holds

  /** The families hold the point under this name. */
  ghost predicate Holds(families: seq<Named<Metric>>, name: string, p: Point) {
    exists i :: 0 <= i < |families| && families[i].name == name && p in families[i].value.points
  }

  ghost predicate Offers(source: Source, name: string, p: Point) {
    source.Ok? && source.value.Some? && FamilyName(source.value.value) == Ok(name) && p in source.value.value.points
  }

  ghost predicate Offered(sources: seq<Source>, name: string, p: Point) {
    exists i :: 0 <= i < |sources| && Offers(sources[i], name, p)
  }

  lemma OfferedPush(front: seq<Source>, last: Source, name: string, p: Point)
    ensures Offered(front + [last], name, p) <==> Offered(front, name, p) || Offers(last, name, p)
  {
    var all := front + [last];
    assert forall i :: 0 <= i < |front| ==> all[i] == front[i];
    assert all[|front|] == last;
  }

  lemma HoldsByMembers(families: seq<Named<Metric>>, name: string, p: Point)
    ensures Holds(families, name, p) <==> exists f :: f in families && f.name == name && p in f.value.points
  {
    if f :| f in families && f.name == name && p in f.value.points {
      var i :| 0 <= i < |families| && families[i] == f;
    }
  }

  /** Merging adds exactly the metric's points, under its family name. */
  lemma MergeHolds(families: seq<Named<Metric>>, m: Metric, name: string, p: Point)
    requires Merge(families, m).Ok?
    ensures Holds(Merge(families, m).value, name, p) <==>
            Holds(families, name, p) || (FamilyName(m) == Ok(name) && p in m.points)
  {
    var own := FamilyName(m).value;
    PlaceIsExact(families, own);
    match Place(families, own)
    case Some(i) => ExtendHolds(families, i, m.points, name, p);
    case None =>
      var le := (a: Named<Metric>, b: Named<Metric>) => NameLe(a, b);
      InsertHolds(le, families, Named(own, m), name, p);
  }

  lemma ExtendHolds(families: seq<Named<Metric>>, i: nat, points: seq<Point>, name: string, p: Point)
    requires i < |families|
    ensures var f := families[i];
            var g := Named(f.name, f.value.(points := f.value.points + points));
            Holds(families[i := g], name, p) <==> Holds(families, name, p) || (f.name == name && p in points)
  {
    var f := families[i];
    var all := families[i := Named(f.name, f.value.(points := f.value.points + points))];
    if Holds(families, name, p) {
      var k :| 0 <= k < |families| && families[k].name == name && p in families[k].value.points;
      assert all[k].name == name && p in all[k].value.points;
    }
    if f.name == name && p in points {
      assert all[i].name == name && p in all[i].value.points;
    }
    if Holds(all, name, p) {
      var k :| 0 <= k < |all| && all[k].name == name && p in all[k].value.points;
      assert families[k].name == name;
    }
  }

  lemma InsertHolds(
    le: (Named<Metric>, Named<Metric>) -> bool, families: seq<Named<Metric>>, f: Named<Metric>, name: string, p: Point)
    ensures Holds(Insert(le, f, families), name, p) <==>
            Holds(families, name, p) || (f.name == name && p in f.value.points)
  {
    var all := Insert(le, f, families);
    InsertAdds(le, f, families);
    HoldsByMembers(all, name, p);
    HoldsByMembers(families, name, p);
    assert forall x :: x in all <==> x in multiset(all);
    assert forall x :: x in families <==> x in multiset(families);
  }

  /** The merged families hold exactly the points the sources offer. */
  lemma {:induction false} MergeAllHolds(sources: seq<Source>, name: string, p: Point)
    requires MergeAll(sources).Ok?
    ensures Holds(MergeAll(sources).value, name, p) <==> Offered(sources, name, p)
  {
    if |sources| > 0 {
      var front, last := sources[..|sources| - 1], sources[|sources| - 1];
      MergeAllHolds(front, name, p);
      FrontAndLast(sources);
      OfferedPush(front, last, name, p);
      if last.value.Some? {
        MergeHolds(MergeAll(front).value, last.value.value, name, p);
      }
    }
  }

  // ---------------------------------------------------------------- which samples a scrape holds

  predicate Yields(pr: Printer, name: string, p: Point, s: Sample) {
    s in PointSamples(pr, name, LabelList(pr, p), p.value)
  }

  ghost predicate YieldedByOne(pr: Printer, name: string, points: seq<Point>, s: Sample) {
    exists p :: p in points && Yields(pr, name, p, s)
  }

  lemma {:induction false} SamplesOfPoints(pr: Printer, name: string, points: seq<Named<Point>>, s: Sample)
    ensures s in SamplesOf(pr, name, points) <==> YieldedByOne(pr, name, ValuesOf(points), s)
  {
    if |points| > 0 {
      var front, p := points[..|points| - 1], points[|points| - 1];
      SamplesOfPoints(pr, name, front, s);
      FrontAndLast(points);
      ValuesPush(front, p);
      YieldedPush(pr, name, ValuesOf(front), p.value, s);
    } else {
      assert ValuesOf(points) == [];
    }
  }

  lemma YieldedPush(pr: Printer, name: string, front: seq<Point>, p: Point, s: Sample)
    ensures YieldedByOne(pr, name, front + [p], s) <==> YieldedByOne(pr, name, front, s) || Yields(pr, name, p, s)
  {
    assert forall q :: q in front + [p] <==> q in front || q == p;
  }

  lemma FamilySamplesComplete(pr: Printer, m: Metric, s: Sample)
    requires FamilyText(pr, m).Ok?
    ensures s in FamilySamples(pr, m) <==> YieldedByOne(pr, FamilyName(m).value, m.points, s)
  {
    SamplesOfPoints(pr, FamilyName(m).value, Arranged(pr, m).value, s);
    ArrangedIsComplete(pr, m);
  }

  ghost predicate YieldedByFamily(pr: Printer, f: Named<Metric>, s: Sample) {
    YieldedByOne(pr, f.name, f.value.points, s)
  }

  lemma {:induction false} SamplesAllComplete(pr: Printer, families: seq<Named<Metric>>, s: Sample)
    requires TextAll(pr, families).Ok?
    requires forall f :: f in families ==> FamilyName(f.value) == Ok(f.name)
    ensures s in SamplesAll(pr, families) <==> exists f :: f in families && YieldedByFamily(pr, f, s)
  {
    if |families| > 0 {
      var front, f := families[..|families| - 1], families[|families| - 1];
      FrontAndLast(families);
      SamplesAllComplete(pr, front, s);
      assert f in families;
      FamilySamplesComplete(pr, f.value, s);
      assert forall g :: g in families <==> g in front || g == f;
    }
  }

  /** Some source offers a point that prints the sample. */
  ghost predicate PrintedBySource(pr: Printer, sources: seq<Source>, s: Sample) {
    exists name, p :: Offered(sources, name, p) && Prints(pr, name, p, s)
  }

  lemma {:induction false} EveryFamilyHasText(pr: Printer, families: seq<Named<Metric>>, f: Named<Metric>)
    requires TextAll(pr, families).Ok? && f in families
    ensures FamilyText(pr, f.value).Ok?
  {
    if f != families[|families| - 1] {
      EveryFamilyHasText(pr, families[..|families| - 1], f);
    }
  }

  /** In a family that has a text, a point yields exactly the samples it prints. */
  lemma YieldsWhatItPrints(pr: Printer, m: Metric, name: string, p: Point, s: Sample)
    requires FamilyText(pr, m).Ok? && p in m.points
    ensures Yields(pr, name, p, s) <==> Prints(pr, name, p, s)
  {
    LabelAllIsPointwise(Labeller(pr, m), m.points, |m.points|);
    var k :| 0 <= k < |m.points| && m.points[k] == p;
    assert LabelString(pr, m, p).Ok?;
    RendersIff(pr.show, m.id.name, p.attrs, Reserved(p.value));
    PrintsIff(pr, name, p, s);
  }

  lemma FamiliesPrintWhatIsOffered(pr: Printer, sources: seq<Source>, s: Sample)
    requires MergeAll(sources).Ok? && TextAll(pr, MergeAll(sources).value).Ok?
    ensures PrintedBySource(pr, sources, s) <==> exists f :: f in MergeAll(sources).value && YieldedByFamily(pr, f, s)
  {
    var families := MergeAll(sources).value;
    if PrintedBySource(pr, sources, s) {
      var name, p :| Offered(sources, name, p) && Prints(pr, name, p, s);
      MergeAllHolds(sources, name, p);
      HoldsByMembers(families, name, p);
      var f :| f in families && f.name == name && p in f.value.points;
      EveryFamilyHasText(pr, families, f);
      YieldsWhatItPrints(pr, f.value, name, p, s);
      assert YieldedByFamily(pr, f, s);
    }
    if f :| f in families && YieldedByFamily(pr, f, s) {
      var p :| p in f.value.points && Yields(pr, f.name, p, s);
      EveryFamilyHasText(pr, families, f);
      YieldsWhatItPrints(pr, f.value, f.name, p, s);
      MergeAllHolds(sources, f.name, p);
      HoldsByMembers(families, f.name, p);
      assert Offered(sources, f.name, p);
    }
  }

  // ---------------------------------------------------------------- the main result

  ghost predicate SourcesTellApart(sources: seq<Source>) {
    forall i :: 0 <= i < |sources| && sources[i].Ok? && sources[i].value.Some? ==>
        AllTellApart(sources[i].value.value.points)
  }

  lemma TellApartAtTheSources(sources: seq<Source>)
    requires MergeAll(sources).Ok?
    ensures AllFamiliesTellApart(MergeAll(sources).value) <==> SourcesTellApart(sources)
  {
    var families := MergeAll(sources).value;
    if AllFamiliesTellApart(families) {
      forall i, p | 0 <= i < |sources| && sources[i].Ok? && sources[i].value.Some? && p in sources[i].value.value.points
        ensures TellsApart(p.value)
      {
        MergedNames(sources, i);
        var name := FamilyName(sources[i].value.value).value;
        assert Offers(sources[i], name, p);
        MergeAllHolds(sources, name, p);
      }
    }
    if SourcesTellApart(sources) {
      forall i, p | 0 <= i < |families| && p in families[i].value.points ensures TellsApart(p.value) {
        assert Holds(families, families[i].name, p);
        MergeAllHolds(sources, families[i].name, p);
      }
    }
  }

  /** A merge succeeds only if every source has a family name. */
  lemma {:induction false} MergedNames(sources: seq<Source>, i: nat)
    requires MergeAll(sources).Ok? && i < |sources|
    ensures sources[i].Ok? && (sources[i].value.Some? ==> FamilyName(sources[i].value.value).Ok?)
  {
    if i < |sources| - 1 {
      MergedNames(sources[..|sources| - 1], i);
    }
  }

  /** A successful scrape reads back as a list of samples: exactly those printed by the points of the sources, and
      no two with the same name and label map, across families and suffixes, exactly when every histogram point's
      boundaries are different as doubles. */
  lemma ScrapeIsUnambiguous(pr: Printer, sources: seq<Source>) returns (samples: seq<Sample>)
    requires Tame(pr) && ScrapeText(pr, sources).Ok? && forall i :: 0 <= i < |sources| ==> SourceOk(sources[i])
    ensures Parse(ScrapeText(pr, sources).value) == Some(samples)
    ensures forall s :: s in samples <==> PrintedBySource(pr, sources, s)
    ensures AllDistinct(samples) <==> SourcesTellApart(sources)
  {
    var families := MergeAll(sources).value;
    MergeAllKeepsFamilies(sources);
    EmitAllIsExact(families);
    var lines := FamiliesReadBack(pr, families);
    SplitLinesInverts(lines);
    samples := SamplesAll(pr, families);
    TellApartAtTheSources(sources);
    forall s ensures s in samples <==> PrintedBySource(pr, sources, s) {
      SamplesAllComplete(pr, families, s);
      FamiliesPrintWhatIsOffered(pr, sources, s);
    }
  }

  // ---------------------------------------------------------------- what scraped sources are like

  lemma {:induction false} ConvertedPoints<A>(visited: seq<(seq<KeyValue>, A)>, convert: A -> Result<PointValue, Error>)
    requires ConvertAll(visited, convert).Ok?
    ensures forall p :: p in ConvertAll(visited, convert).value ==>
              exists i :: 0 <= i < |visited| && convert(visited[i].1) == Ok(p.value)
  {
    if |visited| > 0 {
      var n := |visited| - 1;
      ConvertedPoints(visited[..n], convert);
      forall p | p in ConvertAll(visited, convert).value
        ensures exists i :: 0 <= i < |visited| && convert(visited[i].1) == Ok(p.value)
      {
        if p in ConvertAll(visited[..n], convert).value {
          var i :| 0 <= i < |visited[..n]| && convert(visited[..n][i].1) == Ok(p.value);
          assert visited[i] == visited[..n][i];
        } else {
          assert convert(visited[n].1) == Ok(p.value);
        }
      }
    }
  }

  /** How a scrape reads a histogram cell, known by its log of writes, and a scalar cell. */
  function HistogramPoint(
    metric: string, toNumber: int -> Number, lo: int, b: seq<int>): seq<H.Write> -> Result<PointValue, Error>
  {
    (log: seq<H.Write>) => ToPoint(metric, toNumber, H.SnapshotOf(lo, b, log))
  }

  function ScalarPoint(toNumber: int -> Number): int -> Result<PointValue, Error> {
    (x: int) => Ok(Scalar(toNumber(x)))
  }

  /** A scraped histogram is fit to be rendered, whatever its boundaries convert to; and it tells its boundaries
      apart if the conversion does. */
  lemma ScrapedHistogramIsOk(
    visited: seq<(seq<KeyValue>, seq<H.Write>)>, id: NameIdentity, toNumber: int -> Number, lo: int, b: seq<int>)
    ensures SourceOk(Scraped(visited, id, Histogram, HistogramPoint(id.name, toNumber, lo, b)))
    ensures Separates(toNumber, b) ==>
              SourcesTellApart([Scraped(visited, id, Histogram, HistogramPoint(id.name, toNumber, lo, b))])
  {
    var convert := HistogramPoint(id.name, toNumber, lo, b);
    var points := ConvertAll(visited, convert);
    if points.Ok? {
      ConvertedPoints(visited, convert);
      forall p | p in points.value
        ensures FitsKind(Histogram, p.value) && (Separates(toNumber, b) ==> TellsApart(p.value))
      {
        var i :| 0 <= i < |visited| && convert(visited[i].1) == Ok(p.value);
        var s := H.SnapshotOf(lo, b, visited[i].1);
        ConvertedAt(id.name, toNumber, b);
        if Separates(toNumber, b) {
          ConvertedIsOk(id.name, toNumber, s);
        }
      }
    }
  }

  lemma ScrapedScalarIsOk(visited: seq<(seq<KeyValue>, int)>, id: NameIdentity, kind: Kind, toNumber: int -> Number)
    requires !kind.Histogram?
    ensures SourceOk(Scraped(visited, id, kind, ScalarPoint(toNumber)))
    ensures SourcesTellApart([Scraped(visited, id, kind, ScalarPoint(toNumber))])
  {
    var convert := ScalarPoint(toNumber);
    var points := ConvertAll(visited, convert);
    if points.Ok? {
      ConvertedPoints(visited, convert);
      forall p | p in points.value ensures p.value.Scalar? {
        var i :| 0 <= i < |visited| && convert(visited[i].1) == Ok(p.value);
      }
    }
  }

  // ---------------------------------------------------------------- boundaries that collapse

  /** A histogram `h` without attributes and with the boundaries `b0 < b1`, scraped alone. */
  function CollapsedScrape(toNumber: int -> Number, b0: int, b1: int, log: seq<H.Write>): seq<Source> {
    [Scraped([([], log)], NameIdentity("h", "", ""), Histogram, HistogramPoint("h", toNumber, 0, [b0, b1]))]
  }

  lemma OnePointIsArranged(pr: Printer, m: Metric, v: PointValue)
    requires m.points == [Point([], v)]
    ensures Arranged(pr, m) == Ok([Named("", Point([], v))])
  {
    var p := Point([], v);
    assert LabelsOf(pr.show, []) == [];
    assert SortByName<string>([]) == [];
    assert LabelString(pr, m, p) == Ok("");
    var labelled: Named<Point> := Named("", p);
    assert m.points[0] == p && Labeller(pr, m)(p) == Ok("");
    assert LabelAll(Labeller(pr, m), m.points, 0) == Ok([]);
    assert [] + [labelled] == [labelled];
    assert Labelled(pr, m) == Ok([labelled]);
    SortByNameSorts([labelled]);
    assert SortByName([labelled])[0] in SortByName([labelled]);
    assert SortByName([labelled]) == [labelled];
  }

  lemma OneFamilyIsScraped(pr: Printer, m: Metric, v: PointValue)
    requires m.points == [Point([], v)] && FamilyName(m).Ok?
    ensures ScrapeText(pr, [Ok(Some(m))]).Ok?
  {
    var sources: seq<Source> := [Ok(Some(m))];
    var family := Named(FamilyName(m).value, m);
    assert sources[..0] == [];
    assert MergeAll([]) == Ok([]);
    assert Merge([], m) == Ok([family]);
    assert MergeAll(sources) == Ok([family]);
    EmitAllIsExact([family]);
    assert Apart([family]);
    OnePointIsArranged(pr, m, v);
    assert [family][..0] == [] && TextAll(pr, []) == Ok("");
  }

  /** Integer boundaries that become one double: the scrape succeeds, and repeats a sample. */
  lemma CollapsedBoundariesRepeatALine(pr: Printer, toNumber: int -> Number, b0: int, b1: int, log: seq<H.Write>)
      returns (samples: seq<Sample>)
    requires Tame(pr) && b0 < b1 && toNumber(b0) == toNumber(b1) && toNumber(b0).Finite?
    ensures H.CheckedBoundaries([b0, b1])
    ensures var text := ScrapeText(pr, CollapsedScrape(toNumber, b0, b1, log));
            text.Ok? && Parse(text.value) == Some(samples) && !AllDistinct(samples)
  {
    var id, convert := NameIdentity("h", "", ""), HistogramPoint("h", toNumber, 0, [b0, b1]);
    var sources := CollapsedScrape(toNumber, b0, b1, log);
    ConvertedAt("h", toNumber, [b0, b1]);
    var v := convert(log).value;
    var visited: seq<(seq<KeyValue>, seq<H.Write>)> := [([], log)];
    assert visited[..0] == [] && ConvertAll(visited[..0], convert) == Ok([]);
    assert [] + [Point([], v)] == [Point([], v)];
    assert ConvertAll(visited, convert) == Ok([Point([], v)]);
    var m := Metric(id, Histogram, [Point([], v)]);
    assert sources == [Ok(Some(m))];
    OneFamilyIsScraped(pr, m, v);
    ScrapedHistogramIsOk(visited, id, toNumber, 0, [b0, b1]);
    samples := ScrapeIsUnambiguous(pr, sources);
    assert v.histogram.boundaries[0] == v.histogram.boundaries[1];
    assert !TellsApart(m.points[0].value);
    assert !SourcesTellApart(sources);
  }
}
