/** A whole scrape: families merged by name, name collisions refused, and a text in which every sample is
    unmistakable. */
module PrometheusCollector {
  import opened Wrappers
  import opened Ordering
  import opened Model
  import opened BucketTables
  import opened BucketMap
  import opened Sequences
  import opened NamedLists
  import opened Exposition
  import opened PrometheusLabels
  import opened PrometheusRender
  import opened PrometheusUnique

  // ---------------------------------------------------------------- reading one source

  /** Reads a source's buckets into a metric, or reports the first value that cannot be converted; the source
      is left exactly as it was. */
  method Scrape<A(0, !new)>(source: Map<A>, id: NameIdentity, kind: Kind, convert: A -> Result<PointValue, Error>)
      returns (r: Result<Option<Metric>, Error>)
    requires source.Ok()
    modifies source
    ensures source.Ok() && source.State() == old(source.State())
    ensures r == Scraped(Visited(old(source.State())), id, kind, convert)
  {
    VisitKeepingAll(source.hasher, source.State(), source.init, (_, _) => true);
    var visited := source.VisitBucket((_, _) => true);
    r := Convert(visited, id, kind, convert);
  }

  function ConvertAll<A>(
    visited: seq<(seq<KeyValue>, A)>, convert: A -> Result<PointValue, Error>): Result<seq<Point>, Error>
  {
    if |visited| == 0 then Ok([])
    else
      var front, last := ConvertAll(visited[..|visited| - 1], convert), visited[|visited| - 1];
      if front.Err? then front
      else if convert(last.1).Err? then Err(convert(last.1).error)
      else Ok(front.value + [Point(last.0, convert(last.1).value)])
  }

  function Scraped<A>(
    visited: seq<(seq<KeyValue>, A)>, id: NameIdentity, kind: Kind,
    convert: A -> Result<PointValue, Error>): Result<Option<Metric>, Error>
  {
    var points := ConvertAll(visited, convert);
    if points.Err? then Err(points.error)
    else if points.value == [] then Ok(None)
    else Ok(Some(Metric(id, kind, points.value)))
  }

  method Convert<A>(
    visited: seq<(seq<KeyValue>, A)>, id: NameIdentity, kind: Kind, convert: A -> Result<PointValue, Error>)
      returns (r: Result<Option<Metric>, Error>)
    ensures r == Scraped(visited, id, kind, convert)
  {
    var points, failure := [], None;
    for i := 0 to |visited|
      invariant ConvertAll(visited[..i], convert) == if failure.Some? then Err(failure.value) else Ok(points)
    {
      assert visited[..i + 1][..i] == visited[..i];
      if failure.None? {
        var value := convert(visited[i].1);
        if value.Ok? {
          points := points + [Point(visited[i].0, value.value)];
        } else {
          failure := Some(value.error);
        }
      }
    }
    assert visited[..|visited|] == visited;
    if failure.Some? {
      return Err(failure.value);
    }
    r := if points == [] then Ok(None) else Ok(Some(Metric(id, kind, points)));
  }

  // ---------------------------------------------------------------- merging families

  function Place(families: seq<Named<Metric>>, name: string): Option<nat> {
    if |families| == 0 then None
    else if families[|families| - 1].name == name then Some(|families| - 1)
    else Place(families[..|families| - 1], name)
  }

  lemma {:induction false} PlaceIsExact(families: seq<Named<Metric>>, name: string)
    ensures Place(families, name).Some? ==>
        Place(families, name).value < |families| && families[Place(families, name).value].name == name
    ensures Place(families, name).None? ==> name !in NamesOf(families)
  {
    if |families| > 0 {
      PlaceIsExact(families[..|families| - 1], name);
    }
  }

  /** Adds a metric to the families, kept sorted by name: under a new name, or to the family of that name if
      identity and kind agree. */
  function Merge(families: seq<Named<Metric>>, m: Metric): Result<seq<Named<Metric>>, Error> {
    var name := FamilyName(m);
    if name.Err? then Err(name.error)
    else
      PlaceIsExact(families, name.value);
      var place := Place(families, name.value);
      if place.None? then
        Ok(Insert((a: Named<Metric>, b: Named<Metric>) => NameLe(a, b), Named(name.value, m), families))
      else
        var i := place.value;
        var family := families[i].value;
        if family.id != m.id || family.kind != m.kind then Err(FamilyCollision(name.value))
        else Ok(families[i := Named(name.value, family.(points := family.points + m.points))])
  }

  function MergeAll(sources: seq<Result<Option<Metric>, Error>>): Result<seq<Named<Metric>>, Error> {
    if |sources| == 0 then Ok([])
    else
      var families, last := MergeAll(sources[..|sources| - 1]), sources[|sources| - 1];
      if families.Err? then families
      else if last.Err? then Err(last.error)
      else if last.value.None? then families
      else Merge(families.value, last.value.value)
  }

  // ---------------------------------------------------------------- emitted names

  /** The first of these sample names that has been emitted already. */
  function FirstEmitted(emitted: set<string>, names: seq<string>): Option<string>
    decreases |names|
  {
    if |names| == 0 then None
    else if names[0] in emitted then Some(names[0])
    else FirstEmitted(emitted + {names[0]}, names[1..])
  }

  /** All sample names of the first families, or the first that is emitted twice. */
  function EmitAll(families: seq<Named<Metric>>): Result<set<string>, Error> {
    if |families| == 0 then Ok({})
    else
      var before, f := EmitAll(families[..|families| - 1]), families[|families| - 1];
      if before.Err? then before
      else
        var names := Emits(f.value.kind, f.name);
        var clash := FirstEmitted(before.value, names);
        if clash.Some? then Err(FamilyCollision(clash.value)) else Ok(before.value + set n | n in names)
  }

  // ---------------------------------------------------------------- the whole text

  function TextAll(pr: Printer, families: seq<Named<Metric>>): Result<string, Error> {
    if |families| == 0 then Ok("")
    else
      var before := TextAll(pr, families[..|families| - 1]);
      if before.Err? then before
      else
        var more := FamilyText(pr, families[|families| - 1].value);
        if more.Err? then more else Ok(before.value + more.value)
  }

  /** A scrape's text, or its error. */
  function ScrapeText(pr: Printer, sources: seq<Result<Option<Metric>, Error>>): Result<string, Error> {
    var families := MergeAll(sources);
    if families.Err? then Err(families.error)
    else if EmitAll(families.value).Err? then Err(EmitAll(families.value).error)
    else TextAll(pr, families.value)
  }

  // ---------------------------------------------------------------- what merging keeps

  /** Each family stands under its own name and no two under one; its points fit its kind. */
  ghost predicate FamiliesOk(families: seq<Named<Metric>>) {
    && Distinct(families) && SortedByName(families)
    && forall i :: 0 <= i < |families| ==>
        FamilyName(families[i].value) == Ok(families[i].name) && MetricOk(families[i].value)
  }

  predicate SourceOk(source: Result<Option<Metric>, Error>) {
    source.Ok? && source.value.Some? ==> MetricOk(source.value.value)
  }

  lemma MergeKeepsFamilies(families: seq<Named<Metric>>, m: Metric)
    requires FamiliesOk(families) && MetricOk(m) && Merge(families, m).Ok?
    ensures FamiliesOk(Merge(families, m).value)
  {
    var name := FamilyName(m).value;
    PlaceIsExact(families, name);
    match Place(families, name)
    case Some(i) =>
    case None =>
      var le := (a: Named<Metric>, b: Named<Metric>) => NameLe(a, b);
      var merged := Insert(le, Named(name, m), families);
      NameOrder<Metric>();
      assert Sorted(le, families);
      InsertSorts(le, Named(name, m), families);
      InsertAdds(le, Named(name, m), families);
      InsertDistinct(le, Named(name, m), families);
      forall i, j | 0 <= i < j < |merged| ensures NameLe(merged[i], merged[j]) {
        assert le(merged[i], merged[j]);
      }
      forall i | 0 <= i < |merged|
        ensures FamilyName(merged[i].value) == Ok(merged[i].name) && MetricOk(merged[i].value)
      {
        assert merged[i] in merged;
      }
  }

  lemma {:induction false} MergeAllKeepsFamilies(sources: seq<Result<Option<Metric>, Error>>)
    requires MergeAll(sources).Ok? && forall i :: 0 <= i < |sources| ==> SourceOk(sources[i])
    ensures FamiliesOk(MergeAll(sources).value)
  {
    if |sources| > 0 {
      var front, last := sources[..|sources| - 1], sources[|sources| - 1];
      MergeAllKeepsFamilies(front);
      if last.value.Some? {
        MergeKeepsFamilies(MergeAll(front).value, last.value.value);
      }
    }
  }

  // ---------------------------------------------------------------- what the name check finds

  lemma {:induction false} FirstEmittedIsExact(emitted: set<string>, names: seq<string>)
    ensures FirstEmitted(emitted, names).None? <==>
            (forall i :: 0 <= i < |names| ==> names[i] !in emitted) && NoRepeat(names)
    decreases |names|
  {
    if |names| > 0 {
      var rest := names[1..];
      FirstEmittedIsExact(emitted + {names[0]}, rest);
      forall i | 0 < i < |names| ensures names[i] == rest[i - 1] {
      }
      if FirstEmitted(emitted, names).None? {
        forall i, j | 0 <= i < j < |names| ensures names[i] != names[j] && names[j] !in emitted {
          assert rest[j - 1] !in emitted + {names[0]};
        }
      }
      if (forall i :: 0 <= i < |names| ==> names[i] !in emitted) && NoRepeat(names) {
        forall i | 0 <= i < |rest| ensures rest[i] !in emitted + {names[0]} {
          assert rest[i] == names[i + 1] && names[0] != names[i + 1];
        }
      }
    }
  }

  predicate Emitting(f: Named<Metric>, name: string) {
    name in Emits(f.value.kind, f.name)
  }

  ghost predicate Apart(families: seq<Named<Metric>>) {
    forall i, j, n :: 0 <= i < j < |families| && Emitting(families[i], n) ==> !Emitting(families[j], n)
  }

  ghost predicate EmittedBy(families: seq<Named<Metric>>, n: string) {
    exists i :: 0 <= i < |families| && Emitting(families[i], n)
  }

  lemma ApartPush(front: seq<Named<Metric>>, f: Named<Metric>)
    ensures Apart(front + [f]) <==> Apart(front) && forall n :: Emitting(f, n) ==> !EmittedBy(front, n)
    ensures forall n :: EmittedBy(front + [f], n) <==> EmittedBy(front, n) || Emitting(f, n)
  {
    var all := front + [f];
    assert forall i :: 0 <= i < |front| ==> all[i] == front[i];
    assert all[|front|] == f;
    if Apart(all) {
      forall i, j, n | 0 <= i < j < |front| && Emitting(front[i], n) ensures !Emitting(front[j], n) {
        assert Emitting(all[i], n) && all[j] == front[j];
      }
      forall n | Emitting(f, n) ensures !EmittedBy(front, n) {
        forall i | 0 <= i < |front| ensures !Emitting(front[i], n) {
          assert !Emitting(all[i], n);
        }
      }
    }
    forall n ensures EmittedBy(all, n) <==> EmittedBy(front, n) || Emitting(f, n) {
      if EmittedBy(front, n) {
        var i :| 0 <= i < |front| && Emitting(front[i], n);
        assert Emitting(all[i], n);
      }
      if Emitting(f, n) {
        assert Emitting(all[|front|], n);
      }
    }
  }

  // The check itself is about lists of names only.

  ghost predicate NoRepeat(names: seq<string>) {
    forall i, j :: 0 <= i < j < |names| ==> names[i] != names[j]
  }

  ghost predicate InSome(lists: seq<seq<string>>, n: string) {
    exists i :: 0 <= i < |lists| && n in lists[i]
  }

  ghost predicate Disjoint(lists: seq<seq<string>>) {
    forall i, j, n :: 0 <= i < j < |lists| && n in lists[i] ==> n !in lists[j]
  }

  function EmitLists(lists: seq<seq<string>>): Result<set<string>, Error> {
    if |lists| == 0 then Ok({})
    else
      var before, names := EmitLists(lists[..|lists| - 1]), lists[|lists| - 1];
      if before.Err? then before
      else
        var clash := FirstEmitted(before.value, names);
        if clash.Some? then Err(FamilyCollision(clash.value)) else Ok(before.value + set n | n in names)
  }

  lemma DisjointPush(front: seq<seq<string>>, names: seq<string>)
    ensures Disjoint(front + [names]) <==> Disjoint(front) && forall n :: n in names ==> !InSome(front, n)
    ensures forall n :: InSome(front + [names], n) <==> InSome(front, n) || n in names
  {
    var all := front + [names];
    assert forall i :: 0 <= i < |front| ==> all[i] == front[i];
    assert all[|front|] == names;
  }

  ghost predicate ListCheckIsExact(lists: seq<seq<string>>) {
    && (EmitLists(lists).Ok? <==> Disjoint(lists))
    && (EmitLists(lists).Ok? ==> forall n :: n in EmitLists(lists).value <==> InSome(lists, n))
  }

  lemma OneMoreList(front: seq<seq<string>>, names: seq<string>)
    requires ListCheckIsExact(front) && NoRepeat(names)
    ensures ListCheckIsExact(front + [names])
  {
    DisjointPush(front, names);
    assert (front + [names])[..|front|] == front;
    if EmitLists(front).Ok? {
      FirstEmittedIsExact(EmitLists(front).value, names);
      assert forall n :: n in names ==> exists i :: 0 <= i < |names| && names[i] == n;
    }
  }

  lemma {:induction false} EmitListsIsExact(lists: seq<seq<string>>)
    requires forall i :: 0 <= i < |lists| ==> NoRepeat(lists[i])
    ensures ListCheckIsExact(lists)
  {
    if |lists| > 0 {
      EmitListsIsExact(lists[..|lists| - 1]);
      OneMoreList(lists[..|lists| - 1], lists[|lists| - 1]);
      FrontAndLast(lists);
    }
  }

  function NameLists(families: seq<Named<Metric>>): seq<seq<string>> {
    seq(|families|, i requires 0 <= i < |families| => Emits(families[i].value.kind, families[i].name))
  }

  lemma NameListsFront(families: seq<Named<Metric>>)
    requires |families| > 0
    ensures NameLists(families)[..|families| - 1] == NameLists(families[..|families| - 1])
  {
  }

  lemma {:induction false} EmitAllIsEmitLists(families: seq<Named<Metric>>)
    ensures EmitAll(families) == EmitLists(NameLists(families))
  {
    if |families| > 0 {
      EmitAllIsEmitLists(families[..|families| - 1]);
      NameListsFront(families);
    }
  }

  /** The check passes exactly when no sample name belongs to two families. */
  lemma EmitAllIsExact(families: seq<Named<Metric>>)
    ensures EmitAll(families).Ok? <==> Apart(families)
    ensures EmitAll(families).Ok? ==> forall n :: n in EmitAll(families).value <==> EmittedBy(families, n)
  {
    var lists := NameLists(families);
    EmitAllIsEmitLists(families);
    forall i | 0 <= i < |lists| ensures NoRepeat(lists[i]) {
      SuffixesDiffer(families[i].name);
    }
    EmitListsIsExact(lists);
    SameNames(families);
  }

  lemma SameNames(families: seq<Named<Metric>>)
    ensures Disjoint(NameLists(families)) <==> Apart(families)
    ensures forall n :: InSome(NameLists(families), n) <==> EmittedBy(families, n)
  {
    var lists := NameLists(families);
    assert forall i, n :: 0 <= i < |lists| ==> (n in lists[i] <==> Emitting(families[i], n));
  }

  // ---------------------------------------------------------------- the main result

  function SamplesAll(pr: Printer, families: seq<Named<Metric>>): seq<Sample>
    requires TextAll(pr, families).Ok?
  {
    if |families| == 0 then []
    else SamplesAll(pr, families[..|families| - 1]) + FamilySamples(pr, families[|families| - 1].value)
  }

  ghost predicate AllFamiliesTellApart(families: seq<Named<Metric>>) {
    forall i :: 0 <= i < |families| ==> AllTellApart(families[i].value.points)
  }

  /** The families' text reads back as their samples, each emitted by one of the families, and all different
      exactly when every point tells its boundaries apart. */
  ghost predicate ReadsBack(pr: Printer, families: seq<Named<Metric>>, lines: seq<string>) {
    && TextAll(pr, families).Ok?
    && ReadsAs(TextAll(pr, families).value, lines, SamplesAll(pr, families))
    && (AllDistinct(SamplesAll(pr, families)) <==> AllFamiliesTellApart(families))
    && forall s :: s in SamplesAll(pr, families) ==> EmittedBy(families, s.name)
  }

  lemma {:induction false} FamiliesReadBack(pr: Printer, families: seq<Named<Metric>>) returns (lines: seq<string>)
    requires Tame(pr) && FamiliesOk(families) && Apart(families) && TextAll(pr, families).Ok?
    ensures ReadsBack(pr, families, lines)
  {
    if |families| == 0 {
      lines := [];
    } else {
      var front, f := families[..|families| - 1], families[|families| - 1];
      FrontAndLast(families);
      FrontOk(pr, front, f, families);
      lines := FamiliesReadBack(pr, front);
      lines := AddFamily(pr, front, f, families, lines);
    }
  }

  lemma FrontOk(pr: Printer, front: seq<Named<Metric>>, f: Named<Metric>, families: seq<Named<Metric>>)
    requires families == front + [f] && FamiliesOk(families) && Apart(families) && TextAll(pr, families).Ok?
    ensures FamiliesOk(front) && Apart(front) && TextAll(pr, front).Ok? && Addable(pr, front, f)
  {
    ApartPush(front, f);
    assert families[..|front|] == front && families[|front|] == f;
  }

  ghost predicate Addable(pr: Printer, front: seq<Named<Metric>>, f: Named<Metric>) {
    && MetricOk(f.value) && FamilyName(f.value) == Ok(f.name) && FamilyText(pr, f.value).Ok?
    && forall n :: Emitting(f, n) ==> !EmittedBy(front, n)
  }

  lemma AddFamily(
    pr: Printer, front: seq<Named<Metric>>, f: Named<Metric>, families: seq<Named<Metric>>, before: seq<string>)
      returns (lines: seq<string>)
    requires families == front + [f]
    requires Tame(pr) && Addable(pr, front, f) && ReadsBack(pr, front, before)
    ensures ReadsBack(pr, families, lines)
  {
    assert families[..|front|] == front;
    var text, samples := FamilyText(pr, f.value).value, FamilySamples(pr, f.value);
    var more := FamilyReadsBack(pr, f.value);
    lines := before + more;
    TextsJoin(TextAll(pr, front).value, before, SamplesAll(pr, front), text, more, samples);
    SamplesApart(SamplesAll(pr, front), samples, front, f);
    TellApartPush(front, f);
  }

  lemma TellApartPush(front: seq<Named<Metric>>, f: Named<Metric>)
    ensures AllFamiliesTellApart(front + [f]) <==> AllFamiliesTellApart(front) && AllTellApart(f.value.points)
  {
    assert forall i :: 0 <= i < |front| ==> (front + [f])[i] == front[i];
    assert (front + [f])[|front|] == f;
  }

  lemma SamplesApart(a: seq<Sample>, b: seq<Sample>, front: seq<Named<Metric>>, f: Named<Metric>)
    requires forall n :: Emitting(f, n) ==> !EmittedBy(front, n)
    requires forall s :: s in a ==> EmittedBy(front, s.name)
    requires forall s :: s in b ==> Emitting(f, s.name)
    ensures AllDistinct(a + b) <==> AllDistinct(a) && AllDistinct(b)
    ensures forall s :: s in a + b ==> EmittedBy(front + [f], s.name)
  {
    DistinctAppend(a, b);
    ApartPush(front, f);
  }

  // ---------------------------------------------------------------- the loops

  method Render(pr: Printer, sources: seq<Result<Option<Metric>, Error>>) returns (r: Result<string, Error>)
    requires Tame(pr)
    ensures r == ScrapeText(pr, sources)
  {
    var families := MergeSources(sources);
    if families.Err? {
      return Err(families.error);
    }
    var emitted := CheckNames(families.value);
    if emitted.Err? {
      return Err(emitted.error);
    }
    r := RenderFamilies(pr, families.value);
  }

  lemma {:induction false} MergeStops(sources: seq<Result<Option<Metric>, Error>>, n: nat)
    requires n <= |sources| && MergeAll(sources[..n]).Err?
    ensures MergeAll(sources) == MergeAll(sources[..n])
    decreases |sources|
  {
    if n < |sources| {
      assert sources[..|sources| - 1][..n] == sources[..n];
      MergeStops(sources[..|sources| - 1], n);
    } else {
      assert sources[..n] == sources;
    }
  }

  method MergeSources(sources: seq<Result<Option<Metric>, Error>>) returns (r: Result<seq<Named<Metric>>, Error>)
    ensures r == MergeAll(sources)
  {
    r := Ok([]);
    for i := 0 to |sources|
      invariant r.Ok? && r == MergeAll(sources[..i])
    {
      assert sources[..i + 1][..i] == sources[..i];
      if sources[i].Err? {
        MergeStops(sources, i + 1);
        return Err(sources[i].error);
      }
      if sources[i].value.Some? {
        r := Merge(r.value, sources[i].value.value);
        if r.Err? {
          MergeStops(sources, i + 1);
          return;
        }
      }
    }
    assert sources[..|sources|] == sources;
  }

  lemma {:induction false} EmitStops(families: seq<Named<Metric>>, n: nat)
    requires n <= |families| && EmitAll(families[..n]).Err?
    ensures EmitAll(families) == EmitAll(families[..n])
    decreases |families|
  {
    if n < |families| {
      assert families[..|families| - 1][..n] == families[..n];
      EmitStops(families[..|families| - 1], n);
    } else {
      assert families[..n] == families;
    }
  }

  method CheckNames(families: seq<Named<Metric>>) returns (r: Result<set<string>, Error>)
    ensures r == EmitAll(families)
  {
    var emitted: set<string> := {};
    for i := 0 to |families|
      invariant EmitAll(families[..i]) == Ok(emitted)
    {
      assert families[..i + 1][..i] == families[..i];
      var clash, more := CheckFamily(families[i], emitted);
      if clash.Some? {
        EmitStops(families, i + 1);
        return Err(FamilyCollision(clash.value));
      }
      emitted := more;
    }
    assert families[..|families|] == families;
    r := Ok(emitted);
  }

  /** One family's suffixes against what has been emitted. */
  method CheckFamily(f: Named<Metric>, emitted: set<string>) returns (clash: Option<string>, more: set<string>)
    ensures clash == FirstEmitted(emitted, Emits(f.value.kind, f.name))
    ensures clash.None? ==> more == emitted + set n | n in Emits(f.value.kind, f.name)
  {
    var names := Emits(f.value.kind, f.name);
    more := emitted;
    for i := 0 to |names|
      invariant FirstEmitted(emitted, names) == FirstEmitted(more, names[i..])
      invariant more == emitted + set n | n in names[..i]
    {
      if names[i] in more {
        return Some(names[i]), more;
      }
      assert names[i..][1..] == names[i + 1..];
      assert names[..i + 1] == names[..i] + [names[i]];
      more := more + {names[i]};
    }
    assert names[..|names|] == names;
    clash := None;
  }

  lemma {:induction false} TextStops(pr: Printer, families: seq<Named<Metric>>, n: nat)
    requires n <= |families| && TextAll(pr, families[..n]).Err?
    ensures TextAll(pr, families) == TextAll(pr, families[..n])
    decreases |families|
  {
    if n < |families| {
      assert families[..|families| - 1][..n] == families[..n];
      TextStops(pr, families[..|families| - 1], n);
    } else {
      assert families[..n] == families;
    }
  }

  method RenderFamilies(pr: Printer, families: seq<Named<Metric>>) returns (r: Result<string, Error>)
    requires Tame(pr)
    ensures r == TextAll(pr, families)
  {
    var out := "";
    for i := 0 to |families|
      invariant TextAll(pr, families[..i]) == Ok(out)
    {
      assert families[..i + 1][..i] == families[..i];
      var more := RenderInto(pr, families[i].value, out);
      if more.Err? {
        TextStops(pr, families, i + 1);
        return more;
      }
      out := more.value;
    }
    assert families[..|families|] == families;
    r := Ok(out);
  }
}
