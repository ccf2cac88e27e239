/** A failed scrape names a fault that is there. */
module PrometheusErrors {
  import opened Wrappers
  import opened Model
  import opened NamedLists
  import opened Exposition
  import opened PrometheusLabels
  import opened PrometheusRender
  import opened PrometheusUnique
  import opened PrometheusCollector
  import opened PrometheusScrape
  import opened PrometheusSuccess

  // ---------------------------------------------------------------- the faults

  /** Two metrics under one family name that are not one metric. */
  ghost predicate Disagree(ms: seq<Metric>, name: string) {
    exists i, j ::
      0 <= i < j < |ms| && FamilyName(ms[i]) == Ok(name) && FamilyName(ms[j]) == Ok(name) && !Alike(ms[i], ms[j])
  }

  /** Two metrics under different family names that claim one sample name. */
  ghost predicate Clash(ms: seq<Metric>, n: string) {
    exists i, j :: 0 <= i < |ms| && 0 <= j < |ms| && ClashAt(ms[i], ms[j], n)
  }

  predicate ClashAt(m: Metric, o: Metric, n: string) {
    Claims(m, n) && Claims(o, n) && FamilyName(m) != FamilyName(o)
  }

  /** A point offered under the metric's name has a valued attribute with an empty key. */
  predicate NamelessLabel(p: Point) {
    exists i :: 0 <= i < |p.attrs| && p.attrs[i].value.Some? && p.attrs[i].key == ""
  }

  /** A sanitized name that two of the point's attributes share, or `le` on a histogram's point. */
  ghost predicate BadLabel(p: Point, n: string) {
    SharedBy(p.attrs, n) || (p.value.Buckets? && n == "le" && NamedBy(p.attrs, "le"))
  }

  /** Two of the points carry the same labels, printed as `labels`. */
  ghost predicate Duplicates(show: Value -> string, points: seq<Point>, labels: string) {
    exists i, j, ls ::
      && 0 <= i < j < |points| && labels == PrintLabels(ls)
      && Describes(show, points[i].attrs, ls) && Describes(show, points[j].attrs, ls)
  }

  /** Some metric goes by this name and this family name. */
  ghost predicate Called(ms: seq<Metric>, metric: string, name: string) {
    exists k :: 0 <= k < |ms| && ms[k].id.name == metric && FamilyName(ms[k]) == Ok(name)
  }

  ghost predicate OfferedBy(ms: seq<Metric>, metric: string, p: Point) {
    exists name :: Called(ms, metric, name) && p in PointsUnder(ms, name)
  }

  /** The metrics have the fault that the error names. */
  ghost predicate Faulty(show: Value -> string, ms: seq<Metric>, e: Error) {
    match e
    case EmptyMetricName => !AllNamed(ms)
    case FamilyCollision(n) => Disagree(ms, n) || Clash(ms, n)
    case EmptyLabelName(metric) => exists p :: OfferedBy(ms, metric, p) && NamelessLabel(p)
    case LabelCollision(n, metric) => exists p :: OfferedBy(ms, metric, p) && BadLabel(p, n)
    case DuplicateSeries(labels, metric) =>
      exists name :: Called(ms, metric, name) && Duplicates(show, PointsUnder(ms, name), labels)
    case NonFiniteBoundary(_) => false
  }

  // ---------------------------------------------------------------- one family

  lemma PointFault(pr: Printer, m: Metric, p: Point)
    requires LabelString(pr, m, p).Err?
    ensures match LabelString(pr, m, p).error
            case EmptyLabelName(metric) => metric == m.id.name && NamelessLabel(p)
            case LabelCollision(n, metric) => metric == m.id.name && BadLabel(p, n)
            case _ => false
  {
    ErrorNamesTheFault(pr.show, m.id.name, p.attrs, Reserved(p.value));
    match LabelString(pr, m, p).error
    case EmptyLabelName(_) =>
      var i: nat :| BadAt(p.attrs, Reserved(p.value), i) && p.attrs[i].key == "";
    case LabelCollision(n, _) =>
      if ReservedFirst(p.attrs, Reserved(p.value), n) {
        var i: nat :| BadAt(p.attrs, Reserved(p.value), i) && NamesIt(p.attrs[i], n) && n in Reserved(p.value);
      }
    case _ =>
  }

  lemma {:induction false} SomeLabelFails(f: Point -> Result<string, Error>, points: seq<Point>, n: nat)
      returns (i: nat)
    requires n <= |points| && LabelAll(f, points, n).Err?
    ensures i < n && f(points[i]) == Err(LabelAll(f, points, n).error)
  {
    if LabelAll(f, points, n - 1).Err? {
      i := SomeLabelFails(f, points, n - 1);
    } else {
      i := n - 1;
    }
  }

  lemma FoundDuplicate(pr: Printer, m: Metric)
    requires Labelled(pr, m).Ok? && FirstRepeat(SortByName(Labelled(pr, m).value)).Some?
    ensures Duplicates(pr.show, m.points, FirstRepeat(SortByName(Labelled(pr, m).value)).value)
  {
    var labelled := Labelled(pr, m).value;
    var sorted := SortByName(labelled);
    SortByNameSorts(labelled);
    var r := FirstRepeatRepeats(sorted);
    var i, j := TwiceNamed(sorted, labelled, r);
    LabelAllIsPointwise(Labeller(pr, m), m.points, |m.points|);
    var p, q := m.points[i], m.points[j];
    assert LabelString(pr, m, p) == Ok(sorted[r].name) && LabelString(pr, m, q) == Ok(sorted[r].name);
    var ls := LabelsSayTheAttributes(pr.show, m.id.name, p.attrs, Reserved(p.value));
    var lt := LabelsSayTheAttributes(pr.show, m.id.name, q.attrs, Reserved(q.value));
    LabelsParseBack(pr.show, m.id.name, p.attrs, Reserved(p.value));
    assert ls == lt && sorted[r].name == PrintLabels(ls);
  }

  lemma FamilyFault(pr: Printer, m: Metric)
    requires FamilyName(m).Ok? && FamilyText(pr, m).Err?
    ensures match FamilyText(pr, m).error
            case EmptyLabelName(metric) => metric == m.id.name && exists p :: p in m.points && NamelessLabel(p)
            case LabelCollision(n, metric) => metric == m.id.name && exists p :: p in m.points && BadLabel(p, n)
            case DuplicateSeries(labels, metric) => metric == m.id.name && Duplicates(pr.show, m.points, labels)
            case _ => false
  {
    if Labelled(pr, m).Err? {
      var i := SomeLabelFails(Labeller(pr, m), m.points, |m.points|);
      assert LabelString(pr, m, m.points[i]) == Err(Labelled(pr, m).error);
      PointFault(pr, m, m.points[i]);
      assert m.points[i] in m.points;
    } else {
      FoundDuplicate(pr, m);
    }
  }

  // ---------------------------------------------------------------- merging and emitting

  lemma FaultyPush(show: Value -> string, ms: seq<Metric>, m: Metric, e: Error)
    requires e.EmptyMetricName? || e.FamilyCollision?
    requires e.EmptyMetricName? ==> !AllNamed(ms)
    requires e.FamilyCollision? ==> Disagree(ms, e.sample)
    ensures e.EmptyMetricName? ==> !AllNamed(ms + [m])
    ensures e.FamilyCollision? ==> Disagree(ms + [m], e.sample)
  {
    var all := ms + [m];
    assert forall k :: 0 <= k < |ms| ==> all[k] == ms[k];
    if e.FamilyCollision? {
      var i, j :| 0 <= i < j < |ms| && FamilyName(ms[i]) == Ok(e.sample) && FamilyName(ms[j]) == Ok(e.sample)
        && !Alike(ms[i], ms[j]);
      assert all[i] == ms[i] && all[j] == ms[j];
    }
  }

  lemma MergeFault(families: seq<Named<Metric>>, ms: seq<Metric>, m: Metric)
    requires Sorts(families, ms) && Merge(families, m).Err?
    ensures match Merge(families, m).error
            case EmptyMetricName => !AllNamed(ms + [m])
            case FamilyCollision(n) => Disagree(ms + [m], n)
            case _ => false
  {
    var all := ms + [m];
    assert all[|ms|] == m;
    FamilyNameIsOk(m);
    if m.id.name != "" {
      var name := FamilyName(m).value;
      PlaceIsExact(families, name);
      var i := Place(families, name).value;
      assert SortsAt(families[i], ms);
      var k :| 0 <= k < |ms| && FamilyName(ms[k]) == Ok(name);
      assert all[k] == ms[k] && !Alike(all[k], all[|ms|]);
    }
  }

  /** The error of a failed merge is a source's own, or an empty name, or names two metrics that disagree. */
  lemma {:induction false} MergeAllFault(sources: seq<Source>)
    requires MergeAll(sources).Err?
    ensures var ms, e := MetricsOf(sources), MergeAll(sources).error;
            || (exists i :: 0 <= i < |sources| && sources[i] == Err(e))
            || (e.EmptyMetricName? && !AllNamed(ms))
            || (e.FamilyCollision? && Disagree(ms, e.sample))
  {
    var front, last := sources[..|sources| - 1], sources[|sources| - 1];
    if MergeAll(front).Err? {
      MergeAllFault(front);
      var e := MergeAll(front).error;
      if i :| 0 <= i < |front| && front[i] == Err(e) {
        assert sources[i] == Err(e);
      } else if last.Ok? && last.value.Some? {
        FaultyPush((_: Value) => "", MetricsOf(front), last.value.value, e);
      } else {
        assert MetricsOf(sources) == MetricsOf(front);
      }
    } else if last.Ok? {
      MergesIff(front);
      MergeFault(MergeAll(front).value, MetricsOf(front), last.value.value);
    }
  }

  lemma {:induction false} FirstEmittedWas(emitted: set<string>, names: seq<string>)
    requires NoRepeat(names) && FirstEmitted(emitted, names).Some?
    ensures FirstEmitted(emitted, names).value in emitted && FirstEmitted(emitted, names).value in names
    decreases |names|
  {
    if names[0] !in emitted {
      var rest := names[1..];
      assert forall i :: 0 <= i < |rest| ==> rest[i] == names[i + 1];
      FirstEmittedWas(emitted + {names[0]}, rest);
      var n := FirstEmitted(emitted, names).value;
      var k :| 0 <= k < |rest| && rest[k] == n;
      assert names[k + 1] == n != names[0];
    }
  }

  lemma {:induction false} EmitAllFault(families: seq<Named<Metric>>) returns (n: string, a: nat, b: nat)
    requires EmitAll(families).Err?
    ensures EmitAll(families).error == FamilyCollision(n)
    ensures a < b < |families| && Emitting(families[a], n) && Emitting(families[b], n)
  {
    var front, f := families[..|families| - 1], families[|families| - 1];
    if EmitAll(front).Err? {
      n, a, b := EmitAllFault(front);
    } else {
      SuffixesDiffer(f.name);
      n := EmitAll(families).error.sample;
      FirstEmittedWas(EmitAll(front).value, Emits(f.value.kind, f.name));
      EmitAllIsExact(front);
      a :| 0 <= a < |front| && Emitting(front[a], n);
      b := |families| - 1;
    }
  }

  lemma EmittersClash(families: seq<Named<Metric>>, ms: seq<Metric>, a: nat, b: nat, n: string)
    requires Sorts(families, ms) && a < b < |families| && Emitting(families[a], n) && Emitting(families[b], n)
    ensures Clash(ms, n)
  {
    assert SortsAt(families[a], ms) && SortsAt(families[b], ms);
    var i :| 0 <= i < |ms| && FamilyName(ms[i]) == Ok(families[a].name);
    var j :| 0 <= j < |ms| && FamilyName(ms[j]) == Ok(families[b].name);
    EmitsWhatIsClaimed(families[a], ms, i, n);
    EmitsWhatIsClaimed(families[b], ms, j, n);
    assert ClashAt(ms[i], ms[j], n);
  }

  lemma EmitErrorIsClash(families: seq<Named<Metric>>, ms: seq<Metric>)
    requires Sorts(families, ms) && EmitAll(families).Err?
    ensures EmitAll(families).error.FamilyCollision? && Clash(ms, EmitAll(families).error.sample)
  {
    var n, a, b := EmitAllFault(families);
    EmittersClash(families, ms, a, b, n);
  }

  // ---------------------------------------------------------------- the main result

  lemma {:induction false} FirstFamilyFault(pr: Printer, families: seq<Named<Metric>>) returns (i: nat)
    requires TextAll(pr, families).Err?
    ensures i < |families| && FamilyText(pr, families[i].value).Err?
    ensures FamilyText(pr, families[i].value).error == TextAll(pr, families).error
  {
    if TextAll(pr, families[..|families| - 1]).Err? {
      i := FirstFamilyFault(pr, families[..|families| - 1]);
    } else {
      i := |families| - 1;
    }
  }

  lemma FaultInFamily(pr: Printer, families: seq<Named<Metric>>, ms: seq<Metric>, i: nat)
    requires Sorts(families, ms) && i < |families| && FamilyText(pr, families[i].value).Err?
    ensures Faulty(pr.show, ms, FamilyText(pr, families[i].value).error)
  {
    var f := families[i];
    assert SortsAt(f, ms);
    FamilyFault(pr, f.value);
    var k :| 0 <= k < |ms| && FamilyName(ms[k]) == Ok(f.name);
    assert Called(ms, f.value.id.name, f.name);
    assert forall p :: p in f.value.points ==> OfferedBy(ms, f.value.id.name, p);
  }

  /** A source could not be read for this reason, or the metrics have the fault that the error names. */
  ghost predicate NamesAFault(show: Value -> string, sources: seq<Source>, e: Error) {
    (exists i :: 0 <= i < |sources| && sources[i] == Err(e)) || Faulty(show, MetricsOf(sources), e)
  }

  lemma MergeErrorIsFault(show: Value -> string, sources: seq<Source>)
    requires MergeAll(sources).Err?
    ensures NamesAFault(show, sources, MergeAll(sources).error)
  {
    MergeAllFault(sources);
  }

  lemma EmitErrorIsFault(show: Value -> string, sources: seq<Source>)
    requires MergeAll(sources).Ok? && EmitAll(MergeAll(sources).value).Err?
    ensures NamesAFault(show, sources, EmitAll(MergeAll(sources).value).error)
  {
    MergesIff(sources);
    EmitErrorIsClash(MergeAll(sources).value, MetricsOf(sources));
    ClashIsFault(show, MetricsOf(sources), EmitAll(MergeAll(sources).value).error);
  }

  lemma ClashIsFault(show: Value -> string, ms: seq<Metric>, e: Error)
    requires e.FamilyCollision? && Clash(ms, e.sample)
    ensures Faulty(show, ms, e)
  {
  }

  lemma TextErrorIsFault(pr: Printer, sources: seq<Source>)
    requires MergeAll(sources).Ok? && TextAll(pr, MergeAll(sources).value).Err?
    ensures NamesAFault(pr.show, sources, TextAll(pr, MergeAll(sources).value).error)
  {
    MergesIff(sources);
    var i := FirstFamilyFault(pr, MergeAll(sources).value);
    FaultInFamily(pr, MergeAll(sources).value, MetricsOf(sources), i);
  }

  /** The error of a failed scrape is that of a source which could not be read, or names a fault the metrics have. */
  lemma ScrapeErrorNamesAFault(pr: Printer, sources: seq<Source>)
    requires ScrapeText(pr, sources).Err?
    ensures NamesAFault(pr.show, sources, ScrapeText(pr, sources).error)
  {
    if MergeAll(sources).Err? {
      MergeErrorIsFault(pr.show, sources);
    } else if EmitAll(MergeAll(sources).value).Err? {
      EmitErrorIsFault(pr.show, sources);
    } else {
      TextErrorIsFault(pr, sources);
    }
  }

  /** Faults are found in this order: sources that cannot be read, names and disagreements; then sample names claimed
      twice; then the series. */
  lemma FaultsAreFoundInOrder(pr: Printer, sources: seq<Source>)
    ensures var ms, text := MetricsOf(sources), ScrapeText(pr, sources);
            && (!(AllOk(sources) && AllNamed(ms) && Agree(ms)) ==>
                  && text.Err?
                  && ((exists i :: 0 <= i < |sources| && sources[i] == Err(text.error))
                      || (text.error.EmptyMetricName? && !AllNamed(ms))
                      || (text.error.FamilyCollision? && Disagree(ms, text.error.sample))))
            && (AllOk(sources) && AllNamed(ms) && Agree(ms) && !ClaimsApart(ms) ==>
                  text.Err? && text.error.FamilyCollision? && Clash(ms, text.error.sample))
  {
    var ms := MetricsOf(sources);
    MergesIff(sources);
    if MergeAll(sources).Err? {
      MergeAllFault(sources);
    } else {
      EmitAllIsExact(MergeAll(sources).value);
      ApartIffClaimsApart(MergeAll(sources).value, ms);
      if EmitAll(MergeAll(sources).value).Err? {
        EmitErrorIsClash(MergeAll(sources).value, ms);
      }
    }
  }
}
