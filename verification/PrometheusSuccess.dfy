/** When a scrape succeeds: exactly when its metrics can be told apart in the text format. */
module PrometheusSuccess {
  import opened Wrappers
  import opened Ordering
  import opened Model
  import opened Sequences
  import opened NamedLists
  import opened PrometheusLabels
  import opened PrometheusRender
  import opened PrometheusUnique
  import opened PrometheusCollector
  import opened PrometheusScrape

  // ---------------------------------------------------------------- one family

  /** The point has no valued attribute with an empty key, no two with one sanitized name, and, if it is a histogram's,
      none named `le`. */
  ghost predicate CanBeLabelled(p: Point) {
    && (forall i :: 0 <= i < |p.attrs| && p.attrs[i].value.Some? ==> p.attrs[i].key != "")
    && NamesDiffer(p.attrs)
    && (p.value.Buckets? ==> !NamedBy(p.attrs, "le"))
  }

  /** No two of the points carry the same labels. */
  ghost predicate SeriesDiffer(show: Value -> string, points: seq<Point>) {
    forall i, j :: 0 <= i < j < |points| ==> !SameLabels(show, points[i].attrs, points[j].attrs)
  }

  lemma LabelledIff(pr: Printer, m: Metric, p: Point)
    ensures LabelString(pr, m, p).Ok? <==> CanBeLabelled(p)
  {
    var reserved := Reserved(p.value);
    RendersIff(pr.show, m.id.name, p.attrs, reserved);
    if NoneBad(p.attrs, reserved) {
      forall i | 0 <= i < |p.attrs| && p.attrs[i].value.Some? ensures p.attrs[i].key != "" {
        assert !BadKey(p.attrs[i], reserved);
      }
      forall i | 0 <= i < |p.attrs| && p.value.Buckets? ensures !NamesIt(p.attrs[i], "le") {
        assert !BadKey(p.attrs[i], reserved) && "le" in reserved;
      }
    }
    if CanBeLabelled(p) {
      forall i | 0 <= i < |p.attrs| ensures !BadKey(p.attrs[i], reserved) {
        assert p.value.Buckets? ==> !NamesIt(p.attrs[i], "le");
      }
    }
  }

  lemma {:induction false} LabelAllIff(f: Point -> Result<string, Error>, points: seq<Point>, n: nat)
    requires n <= |points|
    ensures LabelAll(f, points, n).Ok? <==> forall i :: 0 <= i < n ==> f(points[i]).Ok?
  {
    if n > 0 {
      LabelAllIff(f, points, n - 1);
    }
  }

  lemma LabelledDiffer(pr: Printer, m: Metric)
    requires Labelled(pr, m).Ok?
    ensures Distinct(Labelled(pr, m).value) <==> SeriesDiffer(pr.show, m.points)
  {
    var labelled := Labelled(pr, m).value;
    LabelAllIsPointwise(Labeller(pr, m), m.points, |m.points|);
    forall i, j | 0 <= i < j < |m.points|
      ensures labelled[i].name == labelled[j].name <==> SameLabels(pr.show, m.points[i].attrs, m.points[j].attrs)
    {
      var p, q := m.points[i], m.points[j];
      assert LabelString(pr, m, p) == Ok(labelled[i].name) && LabelString(pr, m, q) == Ok(labelled[j].name);
      SameStringIffSameLabels(pr.show, m.id.name, p.attrs, q.attrs, Reserved(p.value), Reserved(q.value));
    }
  }

  /** A family renders exactly when it has a name, each of its points can be labelled, and no two carry the same
      labels. */
  lemma FamilyRendersIff(pr: Printer, m: Metric)
    ensures FamilyText(pr, m).Ok? <==>
            && m.id.name != "" && (forall i :: 0 <= i < |m.points| ==> CanBeLabelled(m.points[i]))
            && SeriesDiffer(pr.show, m.points)
  {
    FamilyNameIsOk(m);
    LabelAllIff(Labeller(pr, m), m.points, |m.points|);
    forall i | 0 <= i < |m.points| ensures Labeller(pr, m)(m.points[i]).Ok? <==> CanBeLabelled(m.points[i]) {
      LabelledIff(pr, m, m.points[i]);
    }
    if Labelled(pr, m).Ok? {
      SortByNameSorts(Labelled(pr, m).value);
      NeighboursSuffice(SortByName(Labelled(pr, m).value));
      LabelledDiffer(pr, m);
    }
  }

  // ---------------------------------------------------------------- the metrics of a scrape

  /** What the sources give, without those that have nothing to report. */
  function MetricsOf(sources: seq<Source>): seq<Metric> {
    if |sources| == 0 then []
    else
      var last := sources[|sources| - 1];
      MetricsOf(sources[..|sources| - 1]) + if last.Ok? && last.value.Some? then [last.value.value] else []
  }

  /** All points given under a family name, in order. */
  function PointsUnder(ms: seq<Metric>, name: string): seq<Point> {
    if |ms| == 0 then []
    else
      var m := ms[|ms| - 1];
      PointsUnder(ms[..|ms| - 1], name) + if FamilyName(m) == Ok(name) then m.points else []
  }

  /** Some metric goes by this family name. */
  ghost predicate Under(ms: seq<Metric>, name: string) {
    exists k :: 0 <= k < |ms| && FamilyName(ms[k]) == Ok(name)
  }

  predicate Alike(m: Metric, n: Metric) {
    m.id == n.id && m.kind == n.kind
  }

  /** Metrics with one family name are one metric: they have the same identity and kind. */
  predicate Agree(ms: seq<Metric>) {
    forall i, j :: 0 <= i < j < |ms| && FamilyName(ms[i]) == FamilyName(ms[j]) ==> Alike(ms[i], ms[j])
  }

  predicate AllNamed(ms: seq<Metric>) {
    forall k :: 0 <= k < |ms| ==> ms[k].id.name != ""
  }

  /** A sample name the metric takes: its family name, and for a histogram also those with the three suffixes. */
  predicate Claims(m: Metric, n: string) {
    && m.id.name != ""
    && var name := FamilyName(m).value;
       n == name || (m.kind.Histogram? && (n == name + "_bucket" || n == name + "_sum" || n == name + "_count"))
  }

  /** Metrics with different family names claim no sample name in common. */
  ghost predicate ClaimsApart(ms: seq<Metric>) {
    forall i, j, n :: 0 <= i < |ms| && 0 <= j < |ms| && Claims(ms[i], n) && Claims(ms[j], n) ==>
      FamilyName(ms[i]) == FamilyName(ms[j])
  }

  // ---------------------------------------------------------------- merging

  /** The families are the metrics sorted out by family name. */
  ghost predicate Sorts(families: seq<Named<Metric>>, ms: seq<Metric>) {
    && Distinct(families) && AllSortAt(families, ms)
    && (forall name :: Under(ms, name) ==> name in NamesOf(families))
  }

  ghost predicate AllSortAt(families: seq<Named<Metric>>, ms: seq<Metric>) {
    forall i :: 0 <= i < |families| ==> SortsAt(families[i], ms)
  }

  ghost predicate SortsAt(f: Named<Metric>, ms: seq<Metric>) {
    && Under(ms, f.name) && FamilyName(f.value) == Ok(f.name) && f.value.points == PointsUnder(ms, f.name)
    && forall k :: 0 <= k < |ms| && FamilyName(ms[k]) == Ok(f.name) ==> Alike(f.value, ms[k])
  }

  lemma UnderPush(ms: seq<Metric>, m: Metric, name: string)
    ensures Under(ms + [m], name) <==> Under(ms, name) || FamilyName(m) == Ok(name)
    ensures PointsUnder(ms + [m], name) == PointsUnder(ms, name) + if FamilyName(m) == Ok(name) then m.points else []
  {
    var all := ms + [m];
    assert all[..|ms|] == ms && all[|ms|] == m;
    assert forall k :: 0 <= k < |ms| ==> all[k] == ms[k];
  }

  lemma {:induction false} NothingUnder(ms: seq<Metric>, name: string)
    requires !Under(ms, name)
    ensures PointsUnder(ms, name) == []
  {
    if |ms| > 0 {
      FrontAndLast(ms);
      UnderPush(ms[..|ms| - 1], ms[|ms| - 1], name);
      NothingUnder(ms[..|ms| - 1], name);
    }
  }

  /** A family that the metric does not belong to stays as it was. */
  lemma OtherFamilyStays(f: Named<Metric>, ms: seq<Metric>, m: Metric)
    requires SortsAt(f, ms) && FamilyName(m) != Ok(f.name)
    ensures SortsAt(f, ms + [m])
  {
    UnderPush(ms, m, f.name);
    assert PointsUnder(ms, f.name) + [] == PointsUnder(ms, f.name);
  }

  lemma FamilyTakesPoints(f: Named<Metric>, ms: seq<Metric>, m: Metric)
    requires SortsAt(f, ms) && FamilyName(m) == Ok(f.name) && Alike(f.value, m)
    ensures SortsAt(Named(f.name, f.value.(points := f.value.points + m.points)), ms + [m])
  {
    UnderPush(ms, m, f.name);
  }

  lemma NewFamily(ms: seq<Metric>, m: Metric)
    requires FamilyName(m).Ok? && !Under(ms, FamilyName(m).value)
    ensures SortsAt(Named(FamilyName(m).value, m), ms + [m])
  {
    var name := FamilyName(m).value;
    UnderPush(ms, m, name);
    NothingUnder(ms, name);
    assert [] + m.points == m.points;
    assert (ms + [m])[|ms|] == m;
    assert forall k :: 0 <= k < |ms| ==> (ms + [m])[k] == ms[k] && FamilyName(ms[k]) != Ok(name);
  }

  /** A merge succeeds exactly when the metric has a name and is alike all before it under that name. */
  lemma MergeSucceedsIff(families: seq<Named<Metric>>, ms: seq<Metric>, m: Metric)
    requires Sorts(families, ms)
    ensures Merge(families, m).Ok? <==>
            && m.id.name != ""
            && forall k :: 0 <= k < |ms| && FamilyName(ms[k]) == FamilyName(m) ==> Alike(ms[k], m)
  {
    FamilyNameIsOk(m);
    if m.id.name != "" {
      var name := FamilyName(m).value;
      PlaceIsExact(families, name);
      match Place(families, name)
      case Some(i) =>
        assert SortsAt(families[i], ms);
        var k :| 0 <= k < |ms| && FamilyName(ms[k]) == Ok(name);
        assert Alike(families[i].value, ms[k]);
      case None =>
        assert !Under(ms, name);
    }
  }

  lemma MergeSorts(families: seq<Named<Metric>>, ms: seq<Metric>, m: Metric)
    requires Sorts(families, ms) && Merge(families, m).Ok?
    ensures Sorts(Merge(families, m).value, ms + [m])
  {
    var name, merged := FamilyName(m).value, Merge(families, m).value;
    PlaceIsExact(families, name);
    forall n ensures Under(ms + [m], n) <==> Under(ms, n) || n == name {
      UnderPush(ms, m, n);
    }
    match Place(families, name)
    case Some(i) =>
      ExtendSorts(families, ms, m, i);
    case None =>
      InsertSorted(families, ms, m);
  }

  lemma InsertSorted(families: seq<Named<Metric>>, ms: seq<Metric>, m: Metric)
    requires Sorts(families, ms) && FamilyName(m).Ok? && FamilyName(m).value !in NamesOf(families)
    ensures var name := FamilyName(m).value;
            var all := Insert((a: Named<Metric>, b: Named<Metric>) => NameLe(a, b), Named(name, m), families);
            Distinct(all) && NamesOf(all) == {name} + NamesOf(families) && AllSortAt(all, ms + [m])
  {
    var name, le := FamilyName(m).value, (a: Named<Metric>, b: Named<Metric>) => NameLe(a, b);
    var all := Insert(le, Named(name, m), families);
    InsertAdds(le, Named(name, m), families);
    InsertDistinct(le, Named(name, m), families);
    NewFamily(ms, m);
    forall k | 0 <= k < |all| ensures SortsAt(all[k], ms + [m]) {
      assert all[k] in multiset(all);
      if all[k] != Named(name, m) {
        var i :| 0 <= i < |families| && families[i] == all[k];
        assert families[i].name in NamesOf(families);
        OtherFamilyStays(families[i], ms, m);
      }
    }
  }

  lemma NamesStay<T>(s: seq<Named<T>>, i: nat, x: Named<T>)
    requires i < |s| && s[i].name == x.name
    ensures NamesOf(s[i := x]) == NamesOf(s) && (Distinct(s) ==> Distinct(s[i := x]))
  {
    var t := s[i := x];
    forall n ensures n in NamesOf(t) <==> n in NamesOf(s) {
      if n in NamesOf(s) {
        var k :| 0 <= k < |s| && s[k].name == n;
        assert t[k].name == n;
      }
    }
  }

  lemma ExtendSorts(families: seq<Named<Metric>>, ms: seq<Metric>, m: Metric, i: nat)
    requires Sorts(families, ms) && i < |families| && FamilyName(m) == Ok(families[i].name)
    requires Alike(families[i].value, m)
    ensures var f := families[i];
            var all := families[i := Named(f.name, f.value.(points := f.value.points + m.points))];
            Distinct(all) && NamesOf(all) == NamesOf(families) && AllSortAt(all, ms + [m])
  {
    var f := families[i];
    var all := families[i := Named(f.name, f.value.(points := f.value.points + m.points))];
    NamesStay(families, i, all[i]);
    forall k | 0 <= k < |families| ensures SortsAt(all[k], ms + [m]) {
      assert SortsAt(families[k], ms);
      if k == i {
        FamilyTakesPoints(f, ms, m);
      } else {
        OtherFamilyStays(families[k], ms, m);
      }
    }
  }

  lemma AgreePush(ms: seq<Metric>, m: Metric)
    ensures Agree(ms + [m]) <==>
            Agree(ms) && forall k :: 0 <= k < |ms| && FamilyName(ms[k]) == FamilyName(m) ==> Alike(ms[k], m)
    ensures AllNamed(ms + [m]) <==> AllNamed(ms) && m.id.name != ""
  {
    var all := ms + [m];
    assert all[|ms|] == m && forall k :: 0 <= k < |ms| ==> all[k] == ms[k];
    if Agree(all) {
      forall i, j | 0 <= i < j < |ms| && FamilyName(ms[i]) == FamilyName(ms[j]) ensures Alike(ms[i], ms[j]) {
        assert Alike(all[i], all[j]);
      }
      forall k | 0 <= k < |ms| && FamilyName(ms[k]) == FamilyName(m) ensures Alike(ms[k], m) {
        assert Alike(all[k], all[|ms|]);
      }
    }
  }

  ghost predicate AllOk(sources: seq<Source>) {
    forall i :: 0 <= i < |sources| ==> sources[i].Ok?
  }

  lemma AllOkPush(front: seq<Source>, last: Source)
    ensures AllOk(front + [last]) <==> AllOk(front) && last.Ok?
  {
    assert (front + [last])[|front|] == last;
    assert forall i :: 0 <= i < |front| ==> (front + [last])[i] == front[i];
  }

  /** Merging succeeds exactly when every source could be read and its metrics are named and agree; and then it sorts
      them out by family name. */
  lemma {:induction false} MergesIff(sources: seq<Source>)
    ensures MergeAll(sources).Ok? <==>
            AllOk(sources) && AllNamed(MetricsOf(sources)) && Agree(MetricsOf(sources))
    ensures MergeAll(sources).Ok? ==> Sorts(MergeAll(sources).value, MetricsOf(sources))
  {
    if |sources| > 0 {
      var front, last := sources[..|sources| - 1], sources[|sources| - 1];
      MergesIff(front);
      FrontAndLast(sources);
      AllOkPush(front, last);
      if last.Ok? && last.value.Some? {
        AgreePush(MetricsOf(front), last.value.value);
        if MergeAll(front).Ok? {
          MergeSucceedsIff(MergeAll(front).value, MetricsOf(front), last.value.value);
          if MergeAll(sources).Ok? {
            MergeSorts(MergeAll(front).value, MetricsOf(front), last.value.value);
          }
        }
      } else {
        assert MetricsOf(sources) == MetricsOf(front);
      }
    }
  }

  // ---------------------------------------------------------------- emitted names

  /** A family emits exactly the names its metrics claim. */
  lemma EmitsWhatIsClaimed(f: Named<Metric>, ms: seq<Metric>, k: nat, n: string)
    requires SortsAt(f, ms) && k < |ms| && FamilyName(ms[k]) == Ok(f.name)
    ensures Emitting(f, n) <==> Claims(ms[k], n)
  {
    assert Alike(f.value, ms[k]);
    EmitsAre(f.value.kind, f.name, n);
    NamedIfOk(ms[k]);
  }

  lemma EmitsAre(kind: Kind, name: string, n: string)
    ensures n in Emits(kind, name) <==>
            n == name || (kind.Histogram? && (n == name + "_bucket" || n == name + "_sum" || n == name + "_count"))
  {
  }

  lemma NamedIfOk(m: Metric)
    ensures FamilyName(m).Ok? <==> m.id.name != ""
  {
  }

  lemma ApartIffClaimsApart(families: seq<Named<Metric>>, ms: seq<Metric>)
    requires Sorts(families, ms)
    ensures Apart(families) <==> ClaimsApart(ms)
  {
    if Apart(families) {
      forall i, j, n | 0 <= i < |ms| && 0 <= j < |ms| && Claims(ms[i], n) && Claims(ms[j], n)
        ensures FamilyName(ms[i]) == FamilyName(ms[j])
      {
        var a := FamilyOf(families, ms, i);
        var b := FamilyOf(families, ms, j);
        EmitsWhatIsClaimed(families[a], ms, i, n);
        EmitsWhatIsClaimed(families[b], ms, j, n);
        assert a == b;
      }
    }
    if ClaimsApart(ms) {
      forall a, b, n | 0 <= a < b < |families| && Emitting(families[a], n) ensures !Emitting(families[b], n) {
        var i :| 0 <= i < |ms| && FamilyName(ms[i]) == Ok(families[a].name);
        var j :| 0 <= j < |ms| && FamilyName(ms[j]) == Ok(families[b].name);
        EmitsWhatIsClaimed(families[a], ms, i, n);
        EmitsWhatIsClaimed(families[b], ms, j, n);
        assert families[a].name != families[b].name;
      }
    }
  }

  lemma FamilyOf(families: seq<Named<Metric>>, ms: seq<Metric>, k: nat) returns (a: nat)
    requires Sorts(families, ms) && k < |ms| && ms[k].id.name != ""
    ensures a < |families| && FamilyName(ms[k]) == Ok(families[a].name)
  {
    NamedIfOk(ms[k]);
    var name := FamilyName(ms[k]).value;
    assert Under(ms, name);
    a :| 0 <= a < |families| && families[a].name == name;
  }

  // ---------------------------------------------------------------- the main result

  lemma {:induction false} SomeFamilyFails(pr: Printer, families: seq<Named<Metric>>) returns (i: nat)
    requires TextAll(pr, families).Err?
    ensures i < |families| && FamilyText(pr, families[i].value).Err?
  {
    if TextAll(pr, families[..|families| - 1]).Err? {
      i := SomeFamilyFails(pr, families[..|families| - 1]);
    } else {
      i := |families| - 1;
    }
  }

  /** Every series can be labelled, and no two series of a family carry the same labels. */
  ghost predicate SeriesOk(show: Value -> string, ms: seq<Metric>) {
    forall name :: Under(ms, name) ==> SeriesOkUnder(show, PointsUnder(ms, name))
  }

  ghost predicate SeriesOkUnder(show: Value -> string, points: seq<Point>) {
    (forall i :: 0 <= i < |points| ==> CanBeLabelled(points[i])) && SeriesDiffer(show, points)
  }

  lemma FamiliesRenderIff(pr: Printer, families: seq<Named<Metric>>, ms: seq<Metric>)
    requires Sorts(families, ms)
    ensures TextAll(pr, families).Ok? <==> SeriesOk(pr.show, ms)
  {
    if TextAll(pr, families).Ok? {
      forall name | Under(ms, name) ensures SeriesOkUnder(pr.show, PointsUnder(ms, name)) {
        var i :| 0 <= i < |families| && families[i].name == name;
        EveryFamilyHasText(pr, families, families[i]);
        FamilyRendersIffSeriesOk(pr, families, ms, i);
      }
    } else if SeriesOk(pr.show, ms) {
      var i := SomeFamilyFails(pr, families);
      FamilyRendersIffSeriesOk(pr, families, ms, i);
    }
  }

  lemma FamilyRendersIffSeriesOk(pr: Printer, families: seq<Named<Metric>>, ms: seq<Metric>, i: nat)
    requires Sorts(families, ms) && i < |families|
    ensures FamilyText(pr, families[i].value).Ok? <==> SeriesOkUnder(pr.show, PointsUnder(ms, families[i].name))
    ensures Under(ms, families[i].name)
  {
    assert SortsAt(families[i], ms);
    FamilyNameIsOk(families[i].value);
    FamilyRendersIff(pr, families[i].value);
  }

  /** A scrape succeeds exactly when every source could be read, its metrics are named, those with one family name have
      the same identity and kind, those with different ones claim no sample name in common, and the series of each
      family can be labelled and told apart by their labels. */
  lemma ScrapeSucceedsIff(pr: Printer, sources: seq<Source>)
    ensures var ms := MetricsOf(sources);
            ScrapeText(pr, sources).Ok? <==>
            AllOk(sources) && AllNamed(ms) && Agree(ms) && ClaimsApart(ms) && SeriesOk(pr.show, ms)
  {
    var ms := MetricsOf(sources);
    MergesIff(sources);
    if MergeAll(sources).Ok? {
      var families := MergeAll(sources).value;
      EmitAllIsExact(families);
      ApartIffClaimsApart(families, ms);
      FamiliesRenderIff(pr, families, ms);
    }
  }

  // ---------------------------------------------------------------- nothing to report

  /** A source gives a metric exactly when its visit shows something and all of it converts; with nothing shown it has
      nothing to report. */
  lemma SilentIffNothingShown<A>(
    visited: seq<(seq<KeyValue>, A)>, id: NameIdentity, kind: Kind, convert: A -> Result<PointValue, Error>)
    ensures Scraped(visited, id, kind, convert) == Ok(None) <==> visited == []
    ensures Scraped(visited, id, kind, convert).Ok? <==> forall v :: 0 <= v < |visited| ==> convert(visited[v].1).Ok?
  {
    ConvertsEach(visited, convert);
  }

  lemma {:induction false} ConvertsEach<A>(visited: seq<(seq<KeyValue>, A)>, convert: A -> Result<PointValue, Error>)
    ensures ConvertAll(visited, convert).Ok? <==> forall v :: 0 <= v < |visited| ==> convert(visited[v].1).Ok?
    ensures ConvertAll(visited, convert).Ok? ==> |ConvertAll(visited, convert).value| == |visited|
  {
    if |visited| > 0 {
      ConvertsEach(visited[..|visited| - 1], convert);
    }
  }

  /** A source that cannot be read reports the first value shown that cannot be converted. */
  lemma {:induction false} FirstFailureIsReported<A>(
    visited: seq<(seq<KeyValue>, A)>, convert: A -> Result<PointValue, Error>) returns (v: nat)
    requires ConvertAll(visited, convert).Err?
    ensures v < |visited| && convert(visited[v].1) == Err(ConvertAll(visited, convert).error)
    ensures forall u :: 0 <= u < v ==> convert(visited[u].1).Ok?
  {
    var front := visited[..|visited| - 1];
    if ConvertAll(front, convert).Err? {
      v := FirstFailureIsReported(front, convert);
      assert forall u :: 0 <= u < v ==> visited[u] == front[u];
    } else {
      v := |visited| - 1;
      ConvertsEach(front, convert);
      assert forall u :: 0 <= u < v ==> visited[u] == front[u];
    }
  }

  /** Sources with nothing to report render nothing. */
  lemma SilentSourcesRenderNothing(pr: Printer, sources: seq<Source>)
    requires forall i :: 0 <= i < |sources| ==> sources[i] == Ok(None)
    ensures ScrapeText(pr, sources) == Ok("")
  {
    NothingMerged(sources);
  }

  lemma {:induction false} NothingMerged(sources: seq<Source>)
    requires forall i :: 0 <= i < |sources| ==> sources[i] == Ok(None)
    ensures MergeAll(sources) == Ok([])
  {
    if |sources| > 0 {
      NothingMerged(sources[..|sources| - 1]);
    }
  }
}
