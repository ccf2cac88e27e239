/** Counters lose nothing: what was written to an attribute set is what the destructive observer reported, what
    resets returned, and what stands in the 64-bit cell. */
module Conservation {
  import opened Wrappers
  import opened Measure
  import opened Histogram
  import opened Model
  import opened BucketTables
  import opened BucketRefinement
  import opened BucketRuns
  import opened Observation
  import opened DeltaReports
  import opened Accounting

  // ---------------------------------------------------------------- on logs

  function CounterKit(lo: int): Kit<seq<Write>, int> {
    ScalarKit(lo, ValueOf(lo))
  }

  function ValueOf(lo: int): seq<Write> -> int {
    (log: seq<Write>) => Wrap(lo, NetSum(log))
  }

  /** All that destructive polls reported and resets returned. */
  function Out(lo: int, modes: seq<Mode>, ds: seq<Deed>, key: seq<KeyValue>): int {
    Sum(Reported(CounterKit(lo), modes, ds, key)) + Sum(Returned(CounterKit(lo), modes, ds, key))
  }

  /** A deed's contribution to the net of the writes to a set. */
  function NetOf(d: Deed, key: seq<KeyValue>): int {
    if d.Note? && CanonOf(d.attrs) == key then Sign(d.w) * d.w.value else 0
  }

  lemma NetSumPush(log: seq<Write>, w: Write)
    ensures NetSum(log + [w]) == NetSum(log) + Sign(w) * w.value
  {
    assert (log + [w])[..|log|] == log;
  }

  lemma WritesToStep(ds: seq<Deed>, key: seq<KeyValue>)
    requires |ds| > 0
    ensures NetSum(WritesTo(ds, key)) == NetSum(WritesTo(ds[..|ds| - 1], key)) + NetOf(ds[|ds| - 1], key)
  {
    var d, before := ds[|ds| - 1], WritesTo(ds[..|ds| - 1], key);
    if d.Note? && CanonOf(d.attrs) == key {
      NetSumPush(before, d.w);
    } else {
      assert before + [] == before;
    }
  }

  lemma LiveNetStep(modes: seq<Mode>, ds: seq<Deed>, key: seq<KeyValue>)
    requires |ds| > 0
    ensures NetSum(Live(modes, ds, key)) ==
            if Empties(modes, ds[|ds| - 1], key) then 0
            else NetSum(Live(modes, ds[..|ds| - 1], key)) + NetOf(ds[|ds| - 1], key)
  {
    var d, before := ds[|ds| - 1], Live(modes, ds[..|ds| - 1], key);
    LiveStep(modes, ds, key);
    if !Empties(modes, d, key) && d.Note? && CanonOf(d.attrs) == key {
      NetSumPush(before, d.w);
    }
  }

  /** What one deed adds to the values of one kind. */
  lemma GivenPush(lo: int, modes: seq<Mode>, ds: seq<Deed>, key: seq<KeyValue>, polls: bool)
    requires |ds| > 0
    ensures var front, d, kit := ds[..|ds| - 1], ds[|ds| - 1], CounterKit(lo);
            var g := Gives(kit, modes, Source(modes, front), d, key);
            Sum(Given(kit, modes, ds, key, polls)) ==
            Sum(Given(kit, modes, front, key, polls)) + if g.Some? && DrainedBy(modes, d) == polls then g.value else 0
  {
    var front, d, kit := ds[..|ds| - 1], ds[|ds| - 1], CounterKit(lo);
    var given, g := Given(kit, modes, front, key, polls), Gives(kit, modes, Source(modes, front), d, key);
    if g.Some? && DrainedBy(modes, d) == polls {
      SumPush(given, g.value);
    } else {
      assert given + [] == given;
    }
  }

  /** An emptied cell's value is given away in full: what is not reported is zero. */
  lemma OutStep(lo: int, modes: seq<Mode>, ds: seq<Deed>, key: seq<KeyValue>)
    requires |ds| > 0 && lo <= 0 < lo + TWO_TO_THE_64
    ensures Out(lo, modes, ds, key) == Out(lo, modes, ds[..|ds| - 1], key) +
            if Empties(modes, ds[|ds| - 1], key) then Wrap(lo, NetSum(Live(modes, ds[..|ds| - 1], key))) else 0
  {
    var front, d, kit := ds[..|ds| - 1], ds[|ds| - 1], CounterKit(lo);
    GivenPush(lo, modes, ds, key, true);
    GivenPush(lo, modes, ds, key, false);
    UntouchedIsInitial(modes, front);
    if Empties(modes, d, key) {
      GivesItsHoldings(kit, modes, Source(modes, front), d, key);
      assert kit.current(Live(modes, front, key)) == Wrap(lo, NetSum(Live(modes, front, key)));
    }
  }

  /** What went out and the live log add up to the net of all writes, modulo 2^64; the result counts the laps. */
  lemma {:induction false} CounterLaps(lo: int, modes: seq<Mode>, ds: seq<Deed>, key: seq<KeyValue>) returns (laps: int)
    requires lo <= 0 < lo + TWO_TO_THE_64
    ensures NetSum(WritesTo(ds, key)) ==
            Out(lo, modes, ds, key) + NetSum(Live(modes, ds, key)) + laps * TWO_TO_THE_64
  {
    laps := 0;
    if |ds| > 0 {
      var front := ds[..|ds| - 1];
      laps := CounterLaps(lo, modes, front, key);
      WritesToStep(ds, key);
      LiveNetStep(modes, ds, key);
      OutStep(lo, modes, ds, key);
      if Empties(modes, ds[|ds| - 1], key) {
        laps := laps + Laps(lo, NetSum(Live(modes, front, key)));
      }
    }
  }

  // ---------------------------------------------------------------- on cells that wrap at every write

  function Adding(lo: int, w: Write): int -> int {
    (x: int) => Wrap(lo, x + Sign(w) * w.value)
  }

  /** The same deed on cells that hold plain 64-bit values. */
  function AsScalarEvent(lo: int, d: Deed): Event<int> {
    match d
    case Note(attrs, w) => Do(Call.Record(attrs, Adding(lo, w)))
    case PutBack(attrs) => Do(Call.Reset(attrs))
    case Ask(attrs) => Do(Call.Get(attrs))
    case Polled(j, ts) => Poll(j, ts)
    case Shipped(j) => Export(j)
    case Restarted(j) => Restart(j)
    case Scraped => Scrape
  }

  function ScalarEvents(lo: int, ds: seq<Deed>): seq<Event<int>> {
    seq(|ds|, i requires 0 <= i < |ds| => AsScalarEvent(lo, ds[i]))
  }

  /** A cell is read as it stands. */
  function CellKit(lo: int): Kit<int, int> {
    ScalarKit(lo, (x: int) => x)
  }

  function ScalarSource(lo: int, modes: seq<Mode>, ds: seq<Deed>): Plain<int> {
    SourceAfter(0, modes, ScalarEvents(lo, ds))
  }

  lemma ScalarFront(lo: int, ds: seq<Deed>)
    requires |ds| > 0
    ensures ScalarEvents(lo, ds)[..|ds| - 1] == ScalarEvents(lo, ds[..|ds| - 1])
  {
  }

  /** The plain map seen through a reading of its cells. */
  function Viewed<A, B>(view: A -> B, p: Plain<A>): Plain<B> {
    Plain(map k | k in p.buckets :: view(p.buckets[k]), view(p.noAttr), p.touched)
  }

  lemma ViewedWrite<A(!new), B(!new)>(
    view: A -> B, p: Plain<A>, init: A, attrs: seq<KeyValue>, f: A -> A, g: B -> B, touch: bool)
    requires forall a :: view(f(a)) == g(view(a))
    ensures Viewed(view, PlainWrite(p, init, attrs, f, touch)) ==
        PlainWrite(Viewed(view, p), view(init), attrs, g, touch)
  {
  }

  lemma WriteWraps(lo: int, log: seq<Write>, w: Write)
    ensures ValueOf(lo)(Appending(w)(log)) == Adding(lo, w)(ValueOf(lo)(log))
  {
    NetSumPush(log, w);
    WrapAccumulates(lo, NetSum(log), Sign(w) * w.value);
  }

  lemma StepWraps(lo: int, view: seq<Write> -> int, modes: seq<Mode>, p: Plain<seq<Write>>, d: Deed)
    requires view([]) == 0 && (d.Note? ==> forall log :: view(Appending(d.w)(log)) == Adding(lo, d.w)(view(log)))
    ensures Viewed(view, SourceStep([], modes, p, AsEvent(d))) ==
            SourceStep(0, modes, Viewed(view, p), AsScalarEvent(lo, d))
  {
    match d
    case Note(attrs, w) => ViewedWrite(view, p, [], attrs, Appending(w), Adding(lo, w), true);
    case PutBack(attrs) => ViewedWrite(view, p, [], attrs, Const([]), Const(0), false);
    case _ =>
  }

  /** A scalar cell, which wraps at every write, always holds the wrapped net of its log. */
  lemma {:induction false} ScalarCellsAreTheirLogs(lo: int, modes: seq<Mode>, ds: seq<Deed>)
    requires lo <= 0 < lo + TWO_TO_THE_64
    ensures ScalarSource(lo, modes, ds) == Viewed(ValueOf(lo), Source(modes, ds))
  {
    if |ds| > 0 {
      var front, d := ds[..|ds| - 1], ds[|ds| - 1];
      EventsFront(ds);
      ScalarFront(lo, ds);
      ScalarCellsAreTheirLogs(lo, modes, front);
      if d.Note? {
        forall log ensures ValueOf(lo)(Appending(d.w)(log)) == Adding(lo, d.w)(ValueOf(lo)(log)) {
          WriteWraps(lo, log, d.w);
        }
      }
      StepWraps(lo, ValueOf(lo), modes, Source(modes, front), d);
    }
  }

  // ---------------------------------------------------------------- observers and resets see the same values

  lemma TrackStepAgrees(lo: int, mode: Mode, p: Plain<seq<Write>>, t: Track<int>, d: Deed, j: nat, key: seq<KeyValue>)
    ensures TrackStep(CellKit(lo), mode, Viewed(ValueOf(lo), p), t, AsScalarEvent(lo, d), j, key) ==
            TrackStep(CounterKit(lo), mode, p, t, AsEvent(d), j, key)
  {
    assert Shown(CellKit(lo), Viewed(ValueOf(lo), p), key) == Shown(CounterKit(lo), p, key);
  }

  lemma {:induction false} ReadingsAgree(lo: int, modes: seq<Mode>, ds: seq<Deed>, j: nat, key: seq<KeyValue>)
    requires lo <= 0 < lo + TWO_TO_THE_64 && j < |modes|
    ensures TrackAfter(CellKit(lo), 0, modes, ScalarEvents(lo, ds), j, key) ==
            TrackAfter(CounterKit(lo), [], modes, AsEvents(ds), j, key)
    ensures Exported(CellKit(lo), 0, modes, ScalarEvents(lo, ds), j, key) ==
            Exported(CounterKit(lo), [], modes, AsEvents(ds), j, key)
  {
    if |ds| > 0 {
      var front, d := ds[..|ds| - 1], ds[|ds| - 1];
      EventsFront(ds);
      ScalarFront(lo, ds);
      ReadingsAgree(lo, modes, front, j, key);
      ScalarCellsAreTheirLogs(lo, modes, front);
      TrackStepAgrees(lo, modes[j], Source(modes, front),
          TrackAfter(CounterKit(lo), [], modes, AsEvents(front), j, key), d, j, key);
    }
  }

  /** What a reset of the set returns, if the deed is one. */
  function ResetReturns(p: Plain<int>, d: Deed, key: seq<KeyValue>): seq<int> {
    if d.PutBack? && CanonOf(d.attrs) == key then
      match PlainReply(p, 0, Call.Reset(d.attrs))
      case Was(v) => [v]
      case _ => []
    else []
  }

  /** The values that resets of a set have returned. */
  function ResetsReturned(lo: int, modes: seq<Mode>, ds: seq<Deed>, key: seq<KeyValue>): seq<int> {
    if |ds| == 0 then []
    else
      var front := ds[..|ds| - 1];
      ResetsReturned(lo, modes, front, key) + ResetReturns(ScalarSource(lo, modes, front), ds[|ds| - 1], key)
  }

  lemma {:induction false} ResetsAgree(lo: int, modes: seq<Mode>, ds: seq<Deed>, key: seq<KeyValue>)
    requires lo <= 0 < lo + TWO_TO_THE_64
    ensures ResetsReturned(lo, modes, ds, key) == Returned(CounterKit(lo), modes, ds, key)
  {
    if |ds| > 0 {
      var front := ds[..|ds| - 1];
      ResetsAgree(lo, modes, front, key);
      ScalarCellsAreTheirLogs(lo, modes, front);
      ResetAgrees(lo, modes, Source(modes, front), ds[|ds| - 1], key);
    }
  }

  lemma ResetAgrees(lo: int, modes: seq<Mode>, p: Plain<seq<Write>>, d: Deed, key: seq<KeyValue>)
    requires lo <= 0 < lo + TWO_TO_THE_64
    ensures var g := Gives(CounterKit(lo), modes, p, d, key);
            ResetReturns(Viewed(ValueOf(lo), p), d, key) == if g.Some? && !DrainedBy(modes, d) then [g.value] else []
  {
  }

  // ---------------------------------------------------------------- the main result

  /** The value in a set's cell, zero if it has none. */
  function CellValue(p: Plain<int>, key: seq<KeyValue>): int {
    if key == [] then p.noAttr else if key in p.buckets then p.buckets[key] else 0
  }

  lemma CellIsWrappedNet(lo: int, modes: seq<Mode>, ds: seq<Deed>, key: seq<KeyValue>)
    requires lo <= 0 < lo + TWO_TO_THE_64
    ensures CellValue(ScalarSource(lo, modes, ds), key) == Wrap(lo, NetSum(Live(modes, ds, key)))
  {
    ScalarCellsAreTheirLogs(lo, modes, ds);
  }

  /** For every run and every attribute set: the net of the writes is what destructive polls reported, plus what
      resets returned, plus the cell's value, up to a multiple of 2^64. */
  lemma CounterConservation(lo: int, modes: seq<Mode>, ds: seq<Deed>, key: seq<KeyValue>) returns (laps: int)
    requires lo <= 0 < lo + TWO_TO_THE_64
    ensures NetSum(WritesTo(ds, key)) ==
            Sum(Reported(CounterKit(lo), modes, ds, key))
            + Sum(ResetsReturned(lo, modes, ds, key))
            + CellValue(ScalarSource(lo, modes, ds), key)
            + laps * TWO_TO_THE_64
  {
    laps := CounterLaps(lo, modes, ds, key);
    laps := laps + Laps(lo, NetSum(Live(modes, ds, key)));
    CellIsWrappedNet(lo, modes, ds, key);
    ResetsAgree(lo, modes, ds, key);
  }

  /** With one destructive observer: the net of the writes is the sum of that observer's readings, exported or
      waiting, plus what resets returned, plus the cell's value, up to a multiple of 2^64. */
  lemma ExportsConserve(lo: int, modes: seq<Mode>, ds: seq<Deed>, j: nat, key: seq<KeyValue>) returns (laps: int)
    requires lo <= 0 < lo + TWO_TO_THE_64 && OnlyDrainer(modes, j) && NoRestarts(ds, j)
    ensures NetSum(WritesTo(ds, key)) ==
            Sum(Values(Readings(CellKit(lo), 0, modes, ScalarEvents(lo, ds), j, key)))
            + Sum(ResetsReturned(lo, modes, ds, key))
            + CellValue(ScalarSource(lo, modes, ds), key)
            + laps * TWO_TO_THE_64
  {
    laps := CounterConservation(lo, modes, ds, key);
    ReadingsAgree(lo, modes, ds, j, key);
    DrainerHoldsWhatIsReported(CounterKit(lo), modes, ds, j, key);
  }

  // ---------------------------------------------------------------- several destructive observers

  /** For each observer, the sum of its readings, exported or waiting, if it is destructive. */
  function HeldTotals(lo: int, modes: seq<Mode>, ds: seq<Deed>, key: seq<KeyValue>): seq<int> {
    seq(|modes|, j requires 0 <= j < |modes| =>
      if modes[j].Destructive? then Sum(Values(Readings(CellKit(lo), 0, modes, ScalarEvents(lo, ds), j, key))) else 0)
  }

  /** For each observer, the sum of what its destructive polls reported. */
  function ReportedTotals(lo: int, modes: seq<Mode>, ds: seq<Deed>, key: seq<KeyValue>): seq<int> {
    seq(|modes|, j requires 0 <= j < |modes| => Sum(ReportedBy(CounterKit(lo), modes, ds, key, j)))
  }

  lemma {:induction false} OthersReportNothing(
    lo: int, modes: seq<Mode>, ds: seq<Deed>, key: seq<KeyValue>, j: nat)
    requires j < |modes| && !modes[j].Destructive?
    ensures ReportedBy(CounterKit(lo), modes, ds, key, j) == []
  {
    if |ds| > 0 {
      OthersReportNothing(lo, modes, ds[..|ds| - 1], key, j);
    }
  }

  lemma HeldIsReported(lo: int, modes: seq<Mode>, ds: seq<Deed>, key: seq<KeyValue>)
    requires lo <= 0 < lo + TWO_TO_THE_64
    requires forall j :: 0 <= j < |modes| && modes[j].Destructive? ==> NoRestarts(ds, j)
    ensures HeldTotals(lo, modes, ds, key) == ReportedTotals(lo, modes, ds, key)
  {
    forall j | 0 <= j < |modes| ensures HeldTotals(lo, modes, ds, key)[j] == ReportedTotals(lo, modes, ds, key)[j] {
      if modes[j].Destructive? {
        ReadingsAgree(lo, modes, ds, j, key);
        DrainerHoldsWhatItReports(CounterKit(lo), modes, ds, j, key);
      } else {
        OthersReportNothing(lo, modes, ds, key, j);
      }
    }
  }

  lemma ReportedByPush(lo: int, modes: seq<Mode>, ds: seq<Deed>, key: seq<KeyValue>, j: nat)
    requires |ds| > 0
    ensures var front, d, kit := ds[..|ds| - 1], ds[|ds| - 1], CounterKit(lo);
            var g := Gives(kit, modes, Source(modes, front), d, key);
            Sum(ReportedBy(kit, modes, ds, key, j)) == Sum(ReportedBy(kit, modes, front, key, j)) +
              if g.Some? && DrainedBy(modes, d) && d.observer == j then g.value else 0
  {
    var front, d, kit := ds[..|ds| - 1], ds[|ds| - 1], CounterKit(lo);
    var before, g := ReportedBy(kit, modes, front, key, j), Gives(kit, modes, Source(modes, front), d, key);
    if g.Some? && DrainedBy(modes, d) && d.observer == j {
      SumPush(before, g.value);
    } else {
      assert before + [] == before;
    }
  }

  predicate MovesAt(xs: seq<int>, ys: seq<int>, j: nat, x: int) {
    j < |xs| && ys == xs[j := xs[j] + x]
  }

  lemma {:induction false} SumMoves(xs: seq<int>, ys: seq<int>, j: nat, x: int)
    requires MovesAt(xs, ys, j, x)
    ensures Sum(ys) == Sum(xs) + x
  {
    var n := |xs| - 1;
    if j < n {
      SumMoves(xs[..n], ys[..n], j, x);
    } else {
      assert ys[..n] == xs[..n];
    }
  }

  /** One deed's report goes to the one observer that polled. */
  lemma ReportGoesToOne(lo: int, modes: seq<Mode>, ds: seq<Deed>, key: seq<KeyValue>)
    requires |ds| > 0 && DrainedBy(modes, ds[|ds| - 1])
    requires Gives(CounterKit(lo), modes, Source(modes, ds[..|ds| - 1]), ds[|ds| - 1], key).Some?
    ensures var g := Gives(CounterKit(lo), modes, Source(modes, ds[..|ds| - 1]), ds[|ds| - 1], key);
            Sum(ReportedTotals(lo, modes, ds, key)) == Sum(ReportedTotals(lo, modes, ds[..|ds| - 1], key)) + g.value
  {
    var g := Gives(CounterKit(lo), modes, Source(modes, ds[..|ds| - 1]), ds[|ds| - 1], key);
    var k := ds[|ds| - 1].observer;
    TotalsUpdate(lo, modes, ds, key, k, g.value);
    SumMoves(ReportedTotals(lo, modes, ds[..|ds| - 1], key), ReportedTotals(lo, modes, ds, key), k, g.value);
  }

  lemma TotalsUpdate(lo: int, modes: seq<Mode>, ds: seq<Deed>, key: seq<KeyValue>, k: nat, x: int)
    requires |ds| > 0 && DrainedBy(modes, ds[|ds| - 1]) && ds[|ds| - 1].observer == k
    requires Gives(CounterKit(lo), modes, Source(modes, ds[..|ds| - 1]), ds[|ds| - 1], key) == Some(x)
    ensures MovesAt(ReportedTotals(lo, modes, ds[..|ds| - 1], key), ReportedTotals(lo, modes, ds, key), k, x)
  {
    forall j | 0 <= j < |modes|
      ensures ReportedTotals(lo, modes, ds, key)[j] ==
              ReportedTotals(lo, modes, ds[..|ds| - 1], key)[j] + if j == k then x else 0
    {
      ReportedByPush(lo, modes, ds, key, j);
    }
  }

  lemma ReportGoesToNone(lo: int, modes: seq<Mode>, ds: seq<Deed>, key: seq<KeyValue>)
    requires |ds| > 0
    requires !DrainedBy(modes, ds[|ds| - 1])
          || Gives(CounterKit(lo), modes, Source(modes, ds[..|ds| - 1]), ds[|ds| - 1], key).None?
    ensures ReportedTotals(lo, modes, ds, key) == ReportedTotals(lo, modes, ds[..|ds| - 1], key)
  {
    forall j | 0 <= j < |modes|
      ensures ReportedTotals(lo, modes, ds, key)[j] == ReportedTotals(lo, modes, ds[..|ds| - 1], key)[j]
    {
      ReportedByPush(lo, modes, ds, key, j);
    }
  }

  lemma TotalsMove(lo: int, modes: seq<Mode>, ds: seq<Deed>, key: seq<KeyValue>)
    requires |ds| > 0
    ensures Sum(ReportedTotals(lo, modes, ds, key)) - Sum(ReportedTotals(lo, modes, ds[..|ds| - 1], key)) ==
            Sum(Reported(CounterKit(lo), modes, ds, key)) - Sum(Reported(CounterKit(lo), modes, ds[..|ds| - 1], key))
  {
    var front, d := ds[..|ds| - 1], ds[|ds| - 1];
    GivenPush(lo, modes, ds, key, true);
    if DrainedBy(modes, d) && Gives(CounterKit(lo), modes, Source(modes, front), d, key).Some? {
      ReportGoesToOne(lo, modes, ds, key);
    } else {
      ReportGoesToNone(lo, modes, ds, key);
    }
  }

  lemma NothingReported(lo: int, modes: seq<Mode>, key: seq<KeyValue>)
    ensures Sum(ReportedTotals(lo, modes, [], key)) == 0
  {
    ZeroSum(ReportedTotals(lo, modes, [], key));
  }

  lemma {:induction false} AllReportsAreByOne(lo: int, modes: seq<Mode>, ds: seq<Deed>, key: seq<KeyValue>)
    ensures Sum(ReportedTotals(lo, modes, ds, key)) == Sum(Reported(CounterKit(lo), modes, ds, key))
  {
    if |ds| == 0 {
      NothingReported(lo, modes, key);
    } else {
      AllReportsAreByOne(lo, modes, ds[..|ds| - 1], key);
      TotalsMove(lo, modes, ds, key);
    }
  }

  lemma {:induction false} ZeroSum(xs: seq<int>)
    requires forall i :: 0 <= i < |xs| ==> xs[i] == 0
    ensures Sum(xs) == 0
  {
    if |xs| > 0 {
      ZeroSum(xs[..|xs| - 1]);
    }
  }

  /** With any number of destructive observers racing for the set: the net of the writes is the sum of all their
      readings, exported or waiting, plus what resets returned, plus the cell's value, up to a multiple of 2^64. */
  lemma AllExportsConserve(lo: int, modes: seq<Mode>, ds: seq<Deed>, key: seq<KeyValue>) returns (laps: int)
    requires lo <= 0 < lo + TWO_TO_THE_64
    requires forall j :: 0 <= j < |modes| && modes[j].Destructive? ==> NoRestarts(ds, j)
    ensures NetSum(WritesTo(ds, key)) ==
            Sum(HeldTotals(lo, modes, ds, key))
            + Sum(ResetsReturned(lo, modes, ds, key))
            + CellValue(ScalarSource(lo, modes, ds), key)
            + laps * TWO_TO_THE_64
  {
    laps := CounterConservation(lo, modes, ds, key);
    HeldIsReported(lo, modes, ds, key);
    AllReportsAreByOne(lo, modes, ds, key);
  }
}
