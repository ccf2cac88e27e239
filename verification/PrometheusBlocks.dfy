/** A scrape read back family by family: its header, its kind, and its samples, in order. */
module PrometheusBlocks {
  import opened Wrappers
  import opened Model
  import opened Sequences
  import opened NamedLists
  import opened Exposition
  import opened PrometheusRender
  import opened PrometheusUnique
  import opened PrometheusPoints
  import opened PrometheusCollector
  import opened PrometheusScrape
  import opened PrometheusSuccess

  // ---------------------------------------------------------------- reading

  /** Help text: a backslash stands before a backslash, or before `n` for a line feed. */
  function Unescape(s: string): Option<string> {
    if |s| == 0 then Some("")
    else if s[0] != '\\' then Kept(s[0], Unescape(s[1..]))
    else if |s| < 2 then None
    else if s[1] == '\\' then Kept('\\', Unescape(s[2..]))
    else if s[1] == 'n' then Kept('\n', Unescape(s[2..]))
    else None
  }

  function Kept(c: char, r: Option<string>): Option<string> {
    if r.Some? then Some([c] + r.value) else None
  }

  function ReadHelp(line: string): Option<(string, string)> {
    if !("# HELP " <= line) then None
    else
      var (name, rest) := ReadName(line[7..]);
      if |rest| == 0 || rest[0] != ' ' then None
      else
        var text := Unescape(rest[1..]);
        if text.None? then None else Some((name, text.value))
  }

  function ReadType(line: string): Option<(string, Kind)> {
    if !("# TYPE " <= line) then None
    else
      var (name, rest) := ReadName(line[7..]);
      if rest == " counter" then Some((name, Counter))
      else if rest == " gauge" then Some((name, Gauge))
      else if rest == " histogram" then Some((name, Histogram))
      else None
  }

  /** How many lines there are before the next header. */
  function BodyLength(lines: seq<string>): (n: nat)
    ensures n <= |lines|
  {
    if |lines| == 0 || "#" <= lines[0] then 0 else 1 + BodyLength(lines[1..])
  }

  datatype Block = Block(name: string, help: string, kind: Kind, samples: seq<Sample>)

  /** Each family is a help line, which may be missing, a type line for the same name, and sample lines. */
  function ReadBlocks(lines: seq<string>): Option<seq<Block>>
    decreases |lines|, 0
  {
    if |lines| == 0 then Some([])
    else
      var help := ReadHelp(lines[0]);
      var at := if help.Some? then 1 else 0;
      if |lines| <= at then None
      else
        var kind := ReadType(lines[at]);
        if kind.None? || (help.Some? && help.value.0 != kind.value.0) then None
        else ReadBody(if help.Some? then help.value.1 else "", kind.value.0, kind.value.1, lines[at + 1..])
  }

  /** The sample lines up to the next header, and what follows. */
  function ReadBody(help: string, name: string, kind: Kind, lines: seq<string>): Option<seq<Block>>
    decreases |lines|, 1
  {
    var n := BodyLength(lines);
    var samples, rest := ReadSamples(lines[..n]), ReadBlocks(lines[n..]);
    if samples.None? || rest.None? then None else Some([Block(name, help, kind, samples.value)] + rest.value)
  }

  // ---------------------------------------------------------------- reading inverts printing

  lemma {:induction false} UnescapeInverts(s: string)
    ensures Unescape(Escape(s, false)) == Some(s)
  {
    if |s| > 0 {
      UnescapeInverts(s[1..]);
      var c, tail := EscapeChar(s[0], false), Escape(s[1..], false);
      assert (c + tail)[|c|..] == tail;
      assert s == [s[0]] + s[1..];
    }
  }

  lemma HelpReads(name: string, text: string)
    requires NameOk(name, true)
    ensures ReadHelp("# HELP " + name + " " + Escape(text, false)) == Some((name, text))
    ensures ReadType("# HELP " + name + " " + Escape(text, false)).None?
  {
    var line, rest := "# HELP " + name + " " + Escape(text, false), " " + Escape(text, false);
    assert line[7..] == name + rest;
    assert line[2] == 'H';
    ReadNameInverts(name, rest);
    UnescapeInverts(text);
    assert rest[1..] == Escape(text, false);
  }

  lemma TypeReads(name: string, kind: Kind)
    requires NameOk(name, true)
    ensures ReadType("# TYPE " + name + " " + KindText(kind)) == Some((name, kind))
    ensures ReadHelp("# TYPE " + name + " " + KindText(kind)).None?
  {
    var line, rest := "# TYPE " + name + " " + KindText(kind), " " + KindText(kind);
    assert line[7..] == name + rest;
    assert line[2] == 'T';
    ReadNameInverts(name, rest);
    KindReads(kind);
  }

  lemma KindReads(kind: Kind)
    ensures var rest := " " + KindText(kind);
            && (rest == " counter" <==> kind.Counter?) && (rest == " gauge" <==> kind.Gauge?)
            && (rest == " histogram" <==> kind.Histogram?)
  {
    var rest := " " + KindText(kind);
    match kind
    case Counter => assert rest == " counter" && rest[1] == 'c';
    case Gauge => assert rest == " gauge" && rest[1] == 'g';
    case Histogram => assert rest == " histogram" && rest[1] == 'h';
  }

  predicate HeaderNext(lines: seq<string>) {
    |lines| == 0 || "#" <= lines[0]
  }

  lemma {:induction false} BodyOf(body: seq<string>, rest: seq<string>)
    requires forall i :: 0 <= i < |body| ==> !("#" <= body[i])
    requires HeaderNext(rest)
    ensures BodyLength(body + rest) == |body|
  {
    if |body| == 0 {
      assert body + rest == rest;
    } else {
      assert (body + rest)[1..] == body[1..] + rest;
      BodyOf(body[1..], rest);
    }
  }

  /** One family's lines, and then others, read as its block and then theirs. */
  lemma BlockThenRest(m: Metric, name: string, samples: seq<Sample>, rest: seq<string>)
    requires NameOk(name, true) && (forall s :: s in samples ==> SampleOk(s))
    requires ReadBlocks(rest).Some? && HeaderNext(rest)
    ensures ReadBlocks(Header(m, name) + SampleLines(samples) + rest) ==
            Some([Block(name, m.id.description, m.kind, samples)] + ReadBlocks(rest).value)
    ensures HeaderNext(Header(m, name) + SampleLines(samples) + rest)
  {
    var body := SampleLines(samples);
    forall i | 0 <= i < |body| ensures !("#" <= body[i]) {
      assert samples[i] in samples;
      SampleReads(samples[i]);
    }
    BodyOf(body, rest);
    SamplesRead(samples);
    HeaderThenBody(m, name, body, rest);
  }

  lemma HeaderThenBody(m: Metric, name: string, body: seq<string>, rest: seq<string>)
    requires NameOk(name, true)
    requires ReadSamples(body).Some? && ReadBlocks(rest).Some? && BodyLength(body + rest) == |body|
    ensures ReadBlocks(Header(m, name) + body + rest) ==
            Some([Block(name, m.id.description, m.kind, ReadSamples(body).value)] + ReadBlocks(rest).value)
    ensures HeaderNext(Header(m, name) + body + rest)
  {
    HelpReads(name, m.id.description);
    TypeReads(name, m.kind);
    BodyThenRest(m.id.description, name, m.kind, body, rest);
    assert Header(m, name) + body + rest == Header(m, name) + (body + rest);
    var last := "# TYPE " + name + " " + KindText(m.kind);
    if m.id.description == "" {
      assert Header(m, name) == [last];
      TypeThenBody(last, name, m.kind, body + rest);
    } else {
      var first := "# HELP " + name + " " + Escape(m.id.description, false);
      assert Header(m, name) == [first, last];
      HelpThenBody(first, m.id.description, last, name, m.kind, body + rest);
    }
  }

  lemma BodyThenRest(help: string, name: string, kind: Kind, body: seq<string>, rest: seq<string>)
    requires ReadSamples(body).Some? && ReadBlocks(rest).Some? && BodyLength(body + rest) == |body|
    ensures ReadBody(help, name, kind, body + rest) ==
            Some([Block(name, help, kind, ReadSamples(body).value)] + ReadBlocks(rest).value)
  {
    assert (body + rest)[..|body|] == body && (body + rest)[|body|..] == rest;
  }

  lemma TypeThenBody(line: string, name: string, kind: Kind, lines: seq<string>)
    requires ReadHelp(line).None? && ReadType(line) == Some((name, kind))
    ensures ReadBlocks([line] + lines) == ReadBody("", name, kind, lines)
  {
    assert ([line] + lines)[1..] == lines;
  }

  lemma HelpThenBody(help: string, text: string, line: string, name: string, kind: Kind, lines: seq<string>)
    requires ReadHelp(help) == Some((name, text)) && ReadType(line) == Some((name, kind))
    ensures ReadBlocks([help, line] + lines) == ReadBody(text, name, kind, lines)
  {
    assert ([help, line] + lines)[2..] == lines && ([help, line] + lines)[1] == line;
  }

  // ---------------------------------------------------------------- the families of a scrape

  function AllLines(pr: Printer, families: seq<Named<Metric>>): seq<string>
    requires TextAll(pr, families).Ok?
  {
    if |families| == 0 then []
    else
      var f := families[|families| - 1].value;
      AllLines(pr, families[..|families| - 1]) + LinesOfFamily(pr, f)
  }

  ghost predicate IsBlockOf(pr: Printer, f: Named<Metric>, b: Block) {
    && FamilyText(pr, f.value).Ok?
    && b == Block(f.name, f.value.id.description, f.value.kind, FamilySamples(pr, f.value))
  }

  lemma FamilyIsFit(pr: Printer, f: Named<Metric>)
    requires Tame(pr) && MetricOk(f.value) && FamilyName(f.value) == Ok(f.name) && FamilyText(pr, f.value).Ok?
    ensures NameOk(f.name, true) && forall s :: s in FamilySamples(pr, f.value) ==> SampleOk(s)
  {
    PointsAreOk(pr, f.value);
    FamilyNameIsOk(f.value);
    FamilySamplesAreOk(pr, f.value, f.name, Arranged(pr, f.value).value);
  }

  function LinesOfFamily(pr: Printer, m: Metric): seq<string>
    requires FamilyText(pr, m).Ok?
  {
    FamilyLines(pr, m, FamilyName(m).value, Arranged(pr, m).value)
  }

  lemma FamilyThenRest(pr: Printer, f: Named<Metric>, rest: seq<string>) returns (b: Block)
    requires Tame(pr) && MetricOk(f.value) && FamilyName(f.value) == Ok(f.name) && FamilyText(pr, f.value).Ok?
    requires ReadBlocks(rest).Some? && HeaderNext(rest)
    ensures IsBlockOf(pr, f, b)
    ensures ReadBlocks(LinesOfFamily(pr, f.value) + rest) == Some([b] + ReadBlocks(rest).value)
    ensures HeaderNext(LinesOfFamily(pr, f.value) + rest)
  {
    FamilyIsFit(pr, f);
    BlockThenRest(f.value, f.name, FamilySamples(pr, f.value), rest);
    b := Block(f.name, f.value.id.description, f.value.kind, FamilySamples(pr, f.value));
  }

  lemma AllLinesStep(pr: Printer, families: seq<Named<Metric>>)
    requires TextAll(pr, families).Ok? && |families| > 0
    ensures TextAll(pr, families[..|families| - 1]).Ok? && FamilyText(pr, families[|families| - 1].value).Ok?
    ensures AllLines(pr, families) ==
            AllLines(pr, families[..|families| - 1]) + LinesOfFamily(pr, families[|families| - 1].value)
  {
  }

  /** What was read behind the families is read behind their blocks. */
  ghost predicate ReadBefore(blocks: seq<Block>, lines: seq<string>, rest: seq<string>) {
    && ReadBlocks(rest).Some? && HeaderNext(lines + rest)
    && ReadBlocks(lines + rest) == Some(blocks + ReadBlocks(rest).value)
  }

  lemma ReadBeforeJoins(
    blocks: seq<Block>, lines: seq<string>, b: Block, own: seq<string>, rest: seq<string>)
    requires ReadBefore([b], own, rest) && ReadBefore(blocks, lines, own + rest)
    ensures ReadBefore(blocks + [b], lines + own, rest)
  {
    assert lines + own + rest == lines + (own + rest);
    assert blocks + ([b] + ReadBlocks(rest).value) == (blocks + [b]) + ReadBlocks(rest).value;
  }

  ghost predicate AreBlocksOf(pr: Printer, families: seq<Named<Metric>>, blocks: seq<Block>) {
    |blocks| == |families| && forall i :: 0 <= i < |blocks| ==> IsBlockOf(pr, families[i], blocks[i])
  }

  lemma BlocksPush(pr: Printer, front: seq<Named<Metric>>, f: Named<Metric>, blocks: seq<Block>, b: Block)
    requires AreBlocksOf(pr, front, blocks) && IsBlockOf(pr, f, b)
    ensures AreBlocksOf(pr, front + [f], blocks + [b])
  {
  }

  lemma {:induction false} FamiliesThenRest(pr: Printer, families: seq<Named<Metric>>, rest: seq<string>)
      returns (blocks: seq<Block>)
    requires Tame(pr) && TextAll(pr, families).Ok? && ReadBlocks(rest).Some? && HeaderNext(rest)
    requires forall f :: f in families ==> FamilyName(f.value) == Ok(f.name) && MetricOk(f.value)
    ensures AreBlocksOf(pr, families, blocks) && ReadBefore(blocks, AllLines(pr, families), rest)
  {
    if |families| == 0 {
      blocks := [];
      assert [] + rest == rest && [] + ReadBlocks(rest).value == ReadBlocks(rest).value;
    } else {
      var front, f := families[..|families| - 1], families[|families| - 1];
      AllLinesStep(pr, families);
      FrontAndLast(families);
      var own := LinesOfFamily(pr, f.value);
      var b := FamilyThenRest(pr, f, rest);
      blocks := FamiliesThenRest(pr, front, own + rest);
      ReadBeforeJoins(blocks, AllLines(pr, front), b, own, rest);
      BlocksPush(pr, front, f, blocks, b);
      blocks := blocks + [b];
    }
  }

  lemma {:induction false} AllLinesAreTheText(pr: Printer, families: seq<Named<Metric>>)
    requires Tame(pr) && TextAll(pr, families).Ok?
    requires forall f :: f in families ==> FamilyName(f.value) == Ok(f.name) && MetricOk(f.value)
    ensures TextAll(pr, families).value == JoinLines(AllLines(pr, families))
    ensures forall i :: 0 <= i < |AllLines(pr, families)| ==> '\n' !in AllLines(pr, families)[i]
  {
    if |families| > 0 {
      var front, f := families[..|families| - 1], families[|families| - 1];
      AllLinesAreTheText(pr, front);
      FamilyIsFit(pr, f);
      LinesRead(f.value, f.name, FamilySamples(pr, f.value));
      JoinLinesAppends(AllLines(pr, front), FamilyLines(pr, f.value, f.name, Arranged(pr, f.value).value));
    }
  }

  // ---------------------------------------------------------------- the order of the samples

  /** The labels a sample has from its attributes: all but the `le` of a bucket line. */
  function Own(kind: Kind, name: string, s: Sample): seq<Label> {
    if kind.Histogram? && s.name == name + "_bucket" && |s.labels| > 0 then s.labels[..|s.labels| - 1] else s.labels
  }

  lemma OwnLabels(pr: Printer, kind: Kind, name: string, ls: seq<Label>, v: PointValue, s: Sample)
    requires s in PointSamples(pr, name, ls, v) && (v.Buckets? <==> kind.Histogram?)
    ensures Own(kind, name, s) == ls
  {
    SampleIffLine(pr, name, ls, v, s);
    SuffixesDiffer(name);
    var k: nat :| IsLine(pr, name, ls, v, k, s);
  }

  /** Samples stand in the order of their label strings. */
  predicate InOrder(kind: Kind, name: string, samples: seq<Sample>) {
    forall j, k :: 0 <= j < k < |samples| ==>
      TextLe(PrintLabels(Own(kind, name, samples[j])), PrintLabels(Own(kind, name, samples[k])))
  }

  ghost predicate LabelledBy(kind: Kind, name: string, points: seq<Named<Point>>, s: Sample) {
    exists i :: 0 <= i < |points| && PrintLabels(Own(kind, name, s)) == points[i].name
  }

  lemma OrderJoins(
    kind: Kind, name: string, front: seq<Named<Point>>, p: Named<Point>, a: seq<Sample>, b: seq<Sample>)
    requires InOrder(kind, name, a) && SortedByName(front + [p])
    requires forall s :: s in a ==> LabelledBy(kind, name, front, s)
    requires forall s :: s in b ==> PrintLabels(Own(kind, name, s)) == p.name
    ensures InOrder(kind, name, a + b) && forall s :: s in a + b ==> LabelledBy(kind, name, front + [p], s)
  {
    var points, all := front + [p], a + b;
    TextOrderIsTotal();
    assert points[|front|] == p;
    assert forall i :: 0 <= i < |front| ==> points[i] == front[i];
    forall s | s in a ensures TextLe(PrintLabels(Own(kind, name, s)), p.name) && LabelledBy(kind, name, points, s) {
      var i :| 0 <= i < |front| && PrintLabels(Own(kind, name, s)) == front[i].name;
      assert NameLe(points[i], points[|front|]);
    }
    forall s | s in b ensures LabelledBy(kind, name, points, s) {
      assert PrintLabels(Own(kind, name, s)) == points[|front|].name;
    }
    forall j, k | 0 <= j < k < |all|
      ensures TextLe(PrintLabels(Own(kind, name, all[j])), PrintLabels(Own(kind, name, all[k])))
    {
      assert if j < |a| then all[j] in a else all[j] in b;
      assert if k < |a| then all[k] in a else all[k] in b;
    }
  }

  lemma {:induction false} SamplesAreInOrder(pr: Printer, m: Metric, name: string, points: seq<Named<Point>>)
    requires PointsOk(pr, m, points) && SortedByName(points)
    ensures InOrder(m.kind, name, SamplesOf(pr, name, points))
    ensures forall s :: s in SamplesOf(pr, name, points) ==> LabelledBy(m.kind, name, points, s)
  {
    if |points| > 0 {
      var front, p := points[..|points| - 1], points[|points| - 1];
      FrontAndLast(points);
      FrontPointsOk(pr, m, front, p, points);
      SamplesAreInOrder(pr, m, name, front);
      var more := PointSamples(pr, name, LabelList(pr, p.value), p.value.value);
      forall s | s in more ensures PrintLabels(Own(m.kind, name, s)) == p.name {
        OwnLabels(pr, m.kind, name, LabelList(pr, p.value), p.value.value, s);
      }
      OrderJoins(m.kind, name, front, p, SamplesOf(pr, name, front), more);
    }
  }

  // ---------------------------------------------------------------- the main result

  /** The block of a family name says what the metrics under that name say: their description and kind, and the lines
      of their points, in the order of the label strings. */
  ghost predicate Tells(pr: Printer, ms: seq<Metric>, b: Block) {
    && Under(ms, b.name)
    && (forall k :: 0 <= k < |ms| && FamilyName(ms[k]) == Ok(b.name) ==>
          b.help == ms[k].id.description && b.kind == ms[k].kind)
    && (forall s :: s in b.samples <==> exists p :: p in PointsUnder(ms, b.name) && Prints(pr, b.name, p, s))
    && InOrder(b.kind, b.name, b.samples)
  }

  lemma BlockTells(pr: Printer, ms: seq<Metric>, f: Named<Metric>, b: Block)
    requires Tame(pr) && SortsAt(f, ms) && MetricOk(f.value) && IsBlockOf(pr, f, b)
    ensures Tells(pr, ms, b)
  {
    PointsAreOk(pr, f.value);
    ArrangedIsOk(pr, f.value);
    SamplesAreInOrder(pr, f.value, f.name, Arranged(pr, f.value).value);
    assert forall k :: 0 <= k < |ms| && FamilyName(ms[k]) == Ok(b.name) ==> Alike(f.value, ms[k]);
    forall s ensures s in b.samples <==> exists p :: p in f.value.points && Prints(pr, b.name, p, s) {
      FamilySamplesComplete(pr, f.value, s);
      forall p | p in f.value.points ensures Yields(pr, b.name, p, s) <==> Prints(pr, b.name, p, s) {
        YieldsWhatItPrints(pr, f.value, b.name, p, s);
      }
    }
  }

  /** One block for each family name, strictly sorted by name, each telling what the metrics under that name tell. */
  ghost predicate AllTell(pr: Printer, ms: seq<Metric>, blocks: seq<Block>) {
    && (forall i, j :: 0 <= i < j < |blocks| ==>
          TextLe(blocks[i].name, blocks[j].name) && blocks[i].name != blocks[j].name)
    && (forall name :: Under(ms, name) ==> exists i :: 0 <= i < |blocks| && blocks[i].name == name)
    && (forall i :: 0 <= i < |blocks| ==> Tells(pr, ms, blocks[i]))
  }

  lemma FamiliesTell(pr: Printer, families: seq<Named<Metric>>, ms: seq<Metric>, blocks: seq<Block>)
    requires Tame(pr) && FamiliesOk(families) && Sorts(families, ms) && AreBlocksOf(pr, families, blocks)
    ensures AllTell(pr, ms, blocks)
  {
    forall i | 0 <= i < |blocks| ensures Tells(pr, ms, blocks[i]) && blocks[i].name == families[i].name {
      assert IsBlockOf(pr, families[i], blocks[i]);
      BlockTells(pr, ms, families[i], blocks[i]);
    }
    forall i, j | 0 <= i < j < |blocks|
      ensures TextLe(blocks[i].name, blocks[j].name) && blocks[i].name != blocks[j].name
    {
      assert NameLe(families[i], families[j]);
    }
    forall name | Under(ms, name) ensures exists i :: 0 <= i < |blocks| && blocks[i].name == name {
      var i :| 0 <= i < |families| && families[i].name == name;
      assert blocks[i].name == name;
    }
  }

  /** A successful scrape reads back, family by family. */
  lemma ScrapeReadsAsFamilies(pr: Printer, sources: seq<Source>) returns (lines: seq<string>, blocks: seq<Block>)
    requires Tame(pr) && ScrapeText(pr, sources).Ok? && forall i :: 0 <= i < |sources| ==> SourceOk(sources[i])
    ensures SplitLines(ScrapeText(pr, sources).value) == Some(lines) && ReadBlocks(lines) == Some(blocks)
    ensures AllTell(pr, MetricsOf(sources), blocks)
  {
    var families := MergeAll(sources).value;
    MergesIff(sources);
    MergeAllKeepsFamilies(sources);
    lines, blocks := FamiliesReadAsBlocks(pr, families);
    FamiliesTell(pr, families, MetricsOf(sources), blocks);
  }

  lemma FamiliesReadAsBlocks(pr: Printer, families: seq<Named<Metric>>)
      returns (lines: seq<string>, blocks: seq<Block>)
    requires Tame(pr) && FamiliesOk(families) && TextAll(pr, families).Ok?
    ensures SplitLines(TextAll(pr, families).value) == Some(lines) && ReadBlocks(lines) == Some(blocks)
    ensures AreBlocksOf(pr, families, blocks)
  {
    blocks := FamiliesThenRest(pr, families, []);
    lines := AllLines(pr, families);
    assert lines + [] == lines && blocks + [] == blocks;
    AllLinesAreTheText(pr, families);
    SplitLinesInverts(lines);
  }
}
